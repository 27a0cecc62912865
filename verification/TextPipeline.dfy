// Replacement of spans by tokens and of tokens by plaintext, and the round trip
// of a text through tokenise, any run of the vault protocol, and rehydrate.
module TextPipeline {
  import opened Wrappers
  import opened VaultStore
  import opened VaultProtocol
  import opened VaultSafety
  import opened TokenFormat
  import opened SpanFusion
  import opened CollisionTracker

  // Text to put in place of the characters start..end.
  datatype Edit = Edit(start: nat, end: nat, text: string)

  predicate InOrder(edits: seq<Edit>, from: nat, len: nat) {
    && from <= len
    && (forall i :: 0 <= i < |edits| ==> from <= edits[i].start <= edits[i].end <= len)
    && (forall i, j :: 0 <= i < j < |edits| ==> edits[i].end <= edits[j].start)
  }

  // Left to right: kept piece, replacement, kept piece, ...
  function Splice(text: string, from: nat, edits: seq<Edit>): string
    requires InOrder(edits, from, |text|)
    decreases |edits|
  {
    if edits == [] then text[from..]
    else text[from..edits[0].start] + (edits[0].text + Splice(text, edits[0].end, edits[1..]))
  }

  lemma Assoc(a: string, b: string, c: string)
    ensures a + b + c == a + (b + c)
  {
  }

  lemma Slices(text: string, i: nat, j: nat, k: nat)
    requires i <= j <= k <= |text|
    ensures text[i..k] == text[i..j] + text[j..k]
  {
  }

  lemma SpliceFrom(text: string, from: nat, mid: nat, edits: seq<Edit>)
    requires from <= mid && InOrder(edits, mid, |text|)
    ensures InOrder(edits, from, |text|)
    ensures Splice(text, from, edits) == text[from..mid] + Splice(text, mid, edits)
  {
    if edits == [] {
      Slices(text, from, mid, |text|);
    } else {
      var rest := edits[0].text + Splice(text, edits[0].end, edits[1..]);
      Slices(text, from, mid, edits[0].start);
      Assoc(text[from..mid], text[mid..edits[0].start], rest);
    }
  }

  // Where the untouched part of the text ends when these edits are done.
  function Edge(edits: seq<Edit>, len: nat): nat {
    if edits == [] then len else edits[0].start
  }

  lemma Keep(text: string, p: nat, right: string, n: nat)
    requires n <= p <= |text|
    ensures (text[..p] + right)[..n] == text[..n] && (text[..p] + right)[n..] == text[n..p] + right
  {
  }

  lemma SpliceHere(text: string, edits: seq<Edit>)
    requires edits != [] && InOrder(edits, edits[0].start, |text|)
    ensures Splice(text, edits[0].start, edits) == edits[0].text + Splice(text, edits[0].end, edits[1..])
  {
    assert text[edits[0].start..edits[0].start] == "";
  }

  // One right-to-left step: the offsets of the earlier edits stay valid.
  lemma SpliceStep(text: string, e: Edit, done: seq<Edit>, result: string)
    requires InOrder([e] + done, 0, |text|) && InOrder(done, Edge(done, |text|), |text|)
    requires result == text[..Edge(done, |text|)] + Splice(text, Edge(done, |text|), done)
    ensures e.start <= e.end <= |result|
    ensures InOrder([e] + done, e.start, |text|)
    ensures result[..e.start] + e.text + result[e.end..] == text[..e.start] + Splice(text, e.start, [e] + done)
  {
    var all, p := [e] + done, Edge(done, |text|);
    assert all[0] == e && all[1..] == done;
    assert done != [] ==> all[1] == done[0];
    var right := Splice(text, p, done);
    SpliceFrom(text, e.end, p, done);
    Keep(text, p, right, e.start);
    Keep(text, p, right, e.end);
    SpliceHere(text, all);
    Assoc(text[..e.start], e.text, result[e.end..]);
  }

  function EditOf(s: Span, text: string): Edit
    requires Valid(s)
  {
    Edit(s.start, s.end, text)
  }

  function SpanEdits(spans: seq<Span>, texts: seq<string>): (r: seq<Edit>)
    requires |spans| == |texts| && AllValid(spans)
    ensures |r| == |spans|
    ensures forall i :: 0 <= i < |r| ==> r[i].start == spans[i].start && r[i].end == spans[i].end
    ensures forall i :: 0 <= i < |r| ==> r[i].text == texts[i]
  {
    if spans == [] then [] else [EditOf(spans[0], texts[0])] + SpanEdits(spans[1..], texts[1..])
  }

  // Sorted, disjoint and inside the text.
  predicate Fits(text: string, spans: seq<Span>) {
    AllValid(spans) && Disjoint(spans) && forall x :: x in spans ==> x.end <= |text|
  }

  lemma SpanEditsInOrder(text: string, spans: seq<Span>, texts: seq<string>)
    requires |spans| == |texts| && Fits(text, spans)
    ensures InOrder(SpanEdits(spans, texts), 0, |text|)
  {
    forall i | 0 <= i < |spans| ensures Valid(spans[i]) && spans[i].end <= |text| {
      assert spans[i] in spans;
    }
  }

  function SpliceSpans(text: string, spans: seq<Span>, texts: seq<string>): string
    requires |spans| == |texts| && Fits(text, spans)
  {
    SpanEditsInOrder(text, spans, texts);
    Splice(text, 0, SpanEdits(spans, texts))
  }

  lemma Suffix(edits: seq<Edit>, i: nat, len: nat)
    requires InOrder(edits, 0, len) && i <= |edits|
    ensures InOrder(edits[i..], Edge(edits[i..], len), len)
    ensures i > 0 ==> edits[i - 1..] == [edits[i - 1]] + edits[i..] && InOrder(edits[i - 1..], 0, len)
  {
  }

  lemma SpliceDone(text: string, edits: seq<Edit>)
    requires InOrder(edits, 0, |text|)
    ensures InOrder(edits, Edge(edits, |text|), |text|)
    ensures text[..Edge(edits, |text|)] + Splice(text, Edge(edits, |text|), edits) == Splice(text, 0, edits)
  {
    SpliceFrom(text, 0, Edge(edits, |text|), edits);
    assert text[0..Edge(edits, |text|)] == text[..Edge(edits, |text|)];
  }

  // _replace_spans. The spans are in order, so descending by start is last to first.
  method ReplaceSpans(text: string, spans: seq<Span>, tokens: seq<string>) returns (result: string)
    requires |spans| == |tokens| && Fits(text, spans)
    ensures result == SpliceSpans(text, spans, tokens)
  {
    ghost var edits := SpanEdits(spans, tokens);
    SpanEditsInOrder(text, spans, tokens);
    result := text;
    var i := |spans|;
    Suffix(edits, i, |text|);
    assert text == text[..|text|] + text[|text|..];
    while i > 0
      invariant 0 <= i <= |spans|
      invariant InOrder(edits[i..], Edge(edits[i..], |text|), |text|)
      invariant result == text[..Edge(edits[i..], |text|)] + Splice(text, Edge(edits[i..], |text|), edits[i..])
    {
      Suffix(edits, i, |text|);
      i := i - 1;
      SpliceStep(text, edits[i], edits[i + 1..], result);
      result := result[..spans[i].start] + tokens[i] + result[spans[i].end..];
    }
    assert edits[0..] == edits;
    SpliceDone(text, edits);
  }

  // ---- Rehydration ----

  function Subst(p: Piece, plain: map<string, string>): string {
    if p.Match? && p.token.Some? && p.token.value.1 in plain then plain[p.token.value.1] else Text(p)
  }

  function Fill(ps: seq<Piece>, plain: map<string, string>): string {
    if ps == [] then "" else Subst(ps[0], plain) + Fill(ps[1..], plain)
  }

  // Every token whose hash is resolvable replaced by its plaintext.
  function Rehydrated(text: string, plain: map<string, string>): string {
    Fill(Cut(text), plain)
  }

  lemma {:induction false} FillConcat(a: seq<Piece>, b: seq<Piece>, plain: map<string, string>)
    ensures Fill(a + b, plain) == Fill(a, plain) + Fill(b, plain)
    decreases |a|
  {
    if a == [] {
      assert a + b == b;
    } else {
      assert (a + b)[0] == a[0] && (a + b)[1..] == a[1..] + b;
      FillConcat(a[1..], b, plain);
      Assoc(Subst(a[0], plain), Fill(a[1..], plain), Fill(b, plain));
    }
  }

  function TokenEdits(found: seq<Found>, plain: map<string, string>): seq<Edit> {
    if found == [] then []
    else
      var f := found[0];
      (if f.hash in plain then [Edit(f.start, f.end, plain[f.hash])] else []) + TokenEdits(found[1..], plain)
  }

  lemma {:induction false} TokenEditsConcat(a: seq<Found>, b: seq<Found>, plain: map<string, string>)
    ensures TokenEdits(a + b, plain) == TokenEdits(a, plain) + TokenEdits(b, plain)
    decreases |a|
  {
    if a == [] {
      assert a + b == b;
    } else {
      assert (a + b)[0] == a[0] && (a + b)[1..] == a[1..] + b;
      TokenEditsConcat(a[1..], b, plain);
    }
  }

  predicate Resolves(p: Piece, plain: map<string, string>) {
    p.Match? && p.token.Some? && p.token.value.1 in plain
  }

  lemma HitEdits(p: Piece, off: nat, plain: map<string, string>)
    ensures TokenEdits(Hit(p, off), plain) ==
              if Resolves(p, plain) then [Edit(off, off + |p.s|, Subst(p, plain))] else []
  {
  }

  lemma FirstInOrder(off: nat, mid: nat, put: string, rest: seq<Edit>, len: nat)
    requires off <= mid && InOrder(rest, mid, len)
    ensures InOrder([Edit(off, mid, put)] + rest, off, len)
  {
  }

  lemma Empty(s: string)
    ensures "" + s == s
  {
  }

  lemma SpliceFirst(text: string, off: nat, mid: nat, put: string, rest: seq<Edit>)
    requires off <= mid && InOrder(rest, mid, |text|)
    ensures InOrder([Edit(off, mid, put)] + rest, off, |text|)
    ensures Splice(text, off, [Edit(off, mid, put)] + rest) == put + Splice(text, mid, rest)
  {
    var all := [Edit(off, mid, put)] + rest;
    FirstInOrder(off, mid, put, rest, |text|);
    hide InOrder;
    assert all[1..] == rest && text[off..off] == "";
    Empty(put + Splice(text, mid, rest));
  }

  // The edits of the tokens found from off on, spliced into the text from off
  // on, give the rehydrated rest of the text.
  lemma {:induction false} FillIsSplice(text: string, off: nat, plain: map<string, string>)
    requires off <= |text|
    ensures var edits := TokenEdits(Locate(Cut(text[off..]), off), plain);
            InOrder(edits, off, |text|) && Splice(text, off, edits) == Fill(Cut(text[off..]), plain)
    decreases |text| - off
  {
    hide Cut, Locate, Stride, Front, Splice, MatchLen, InOrder, TokenEdits, Hit;
    var s := text[off..];
    CutOn(s);
    ScanOn(text, off);
    if off < |text| {
      var p, mid := Front(s), off + Stride(s);
      FillIsSplice(text, mid, plain);
      var hits, found := Hit(p, off), Locate(Cut(text[mid..]), mid);
      TokenEditsConcat(hits, found, plain);
      HitEdits(p, off, plain);
      var rest := TokenEdits(found, plain);
      assert s[Stride(s)..] == text[mid..] && s[..Stride(s)] == text[off..mid];
      if Resolves(p, plain) {
        SpliceFirst(text, off, mid, Subst(p, plain), rest);
      } else {
        assert [] + rest == rest;
        SpliceFrom(text, off, mid, rest);
      }
    } else {
      SpliceEnd(text, plain);
    }
  }

  lemma SpliceEnd(text: string, plain: map<string, string>)
    ensures TokenEdits([], plain) == [] && InOrder([], |text|, |text|) && Splice(text, |text|, []) == ""
  {
  }

  lemma EditsFrom(found: seq<Found>, i: nat, plain: map<string, string>, len: nat)
    requires i <= |found| && InOrder(TokenEdits(found, plain), 0, len)
    ensures InOrder(TokenEdits(found[i..], plain), 0, len)
    ensures i < |found| ==>
              var f := found[i];
              TokenEdits(found[i..], plain)
              == (if f.hash in plain then [Edit(f.start, f.end, plain[f.hash])] else [])
                 + TokenEdits(found[i + 1..], plain)
    ensures i == |found| ==> TokenEdits(found[i..], plain) == []
  {
    TokenEditsConcat(found[..i], found[i..], plain);
    assert found[..i] + found[i..] == found;
    var all, before := TokenEdits(found, plain), TokenEdits(found[..i], plain);
    assert all[|before|..] == TokenEdits(found[i..], plain);
    assert i < |found| ==> found[i..][0] == found[i] && found[i..][1..] == found[i + 1..];
  }

  // _replace_tokens on the tokens that find_all_tokens found.
  method ReplaceTokens(text: string, found: seq<Found>, plain: map<string, string>)
    returns (result: string, count: nat)
    requires found == FindAll(text)
    ensures result == Rehydrated(text, plain)
    ensures count == |TokenEdits(found, plain)|
  {
    hide TokenEdits, Splice, Cut, Locate;
    assert text[0..] == text;
    FillIsSplice(text, 0, plain);
    result, count := text, 0;
    var i := |found|;
    EditsFrom(found, i, plain, |text|);
    assert text == text[..|text|] + Splice(text, |text|, []) by { SpliceEnd(text, plain); }
    while i > 0
      invariant 0 <= i <= |found|
      invariant var done := TokenEdits(found[i..], plain);
                && count == |done|
                && InOrder(done, Edge(done, |text|), |text|)
                && result == text[..Edge(done, |text|)] + Splice(text, Edge(done, |text|), done)
    {
      ghost var done := TokenEdits(found[i..], plain);
      i := i - 1;
      var f := found[i];
      EditsFrom(found, i, plain, |text|);
      if f.hash in plain {
        SpliceStep(text, Edit(f.start, f.end, plain[f.hash]), done, result);
        result := result[..f.start] + plain[f.hash] + result[f.end..];
        count := count + 1;
      } else {
        assert [] + done == done;
      }
    }
    assert found[0..] == found;
    SpliceDone(text, TokenEdits(found, plain));
  }

  // ---- The round trip of a text ----

  // No token in the text is resolvable.
  ghost predicate Inert(text: string, plain: map<string, string>) {
    forall f :: f in FindAll(text) ==> f.hash !in plain
  }

  // No token inside a kept piece is resolvable.
  ghost predicate KeptInert(text: string, from: nat, edits: seq<Edit>, plain: map<string, string>)
    requires InOrder(edits, from, |text|)
    decreases |edits|
  {
    if edits == [] then Inert(text[from..], plain)
    else Inert(text[from..edits[0].start], plain) && KeptInert(text, edits[0].end, edits[1..], plain)
  }

  lemma {:induction false} FillInert(ps: seq<Piece>, off: nat, plain: map<string, string>)
    requires forall f :: f in Locate(ps, off) ==> f.hash !in plain
    ensures Fill(ps, plain) == Join(ps)
    decreases |ps|
  {
    if ps != [] {
      var end := off + |Text(ps[0])|;
      if Hit(ps[0], off) != [] {
        assert Hit(ps[0], off)[0] in Locate(ps, off);
      }
      FillInert(ps[1..], end, plain);
    }
  }

  lemma InertStays(text: string, plain: map<string, string>)
    requires Inert(text, plain)
    ensures Rehydrated(text, plain) == text
  {
    FillInert(Cut(text), 0, plain);
    JoinCut(text);
  }

  lemma RehydrateAround(a: string, tok: string, b: string, plain: map<string, string>)
    requires HashOf(tok).Some? && HashOf(tok).value in plain && Inert(a, plain)
    ensures Rehydrated(a + (tok + b), plain) == a + (plain[HashOf(tok).value] + Rehydrated(b, plain))
  {
    hide Cut, Groups;
    InertStays(a, plain);
    GroupsOf(tok);
    CutAround(a, tok, b);
    Assoc(a, tok, b);
    var one := [Match(tok, ParseToken(tok))];
    FillConcat(Cut(a) + one, Cut(b), plain);
    FillConcat(Cut(a), one, plain);
    var v := plain[HashOf(tok).value];
    assert Fill(one, plain) == v + "" == v;
    Assoc(a, v, Rehydrated(b, plain));
  }

  lemma GroupsOf(tok: string)
    requires ParseToken(tok).Some?
    ensures Groups(tok).Some?
  {
  }

  function Retext(edits: seq<Edit>, texts: seq<string>): (r: seq<Edit>)
    requires |edits| == |texts|
    ensures |r| == |edits|
    ensures forall i :: 0 <= i < |r| ==> r[i] == edits[i].(text := texts[i])
  {
    if edits == [] then [] else [edits[0].(text := texts[0])] + Retext(edits[1..], texts[1..])
  }

  predicate Opens(tok: string, v: string, plain: map<string, string>) {
    match HashOf(tok) case Some(h) => h in plain && plain[h] == v case None => false
  }

  // Rehydrating a text with tokens in it gives the text with their plaintexts in it.
  lemma {:induction false} RoundTrip(text: string, from: nat, edits: seq<Edit>, texts: seq<string>,
                                     plain: map<string, string>)
    requires InOrder(edits, from, |text|) && |edits| == |texts|
    requires forall i :: 0 <= i < |edits| ==> Opens(edits[i].text, texts[i], plain)
    requires KeptInert(text, from, edits, plain)
    ensures Rehydrated(Splice(text, from, edits), plain) == Splice(text, from, Retext(edits, texts))
    decreases |edits|
  {
    hide Rehydrated, HashOf, Inert;
    if edits == [] {
      InertStays(text[from..], plain);
    } else {
      assert Opens(edits[0].text, texts[0], plain);
      RoundTrip(text, edits[0].end, edits[1..], texts[1..], plain);
      RehydrateAround(text[from..edits[0].start], edits[0].text, Splice(text, edits[0].end, edits[1..]), plain);
      assert Retext(edits, texts)[1..] == Retext(edits[1..], texts[1..]);
    }
  }

  // What find_all_tokens returns on a spliced text: in order, the tokens of each
  // kept piece and the inserted tokens, at their shifted offsets.
  function Expected(text: string, from: nat, edits: seq<Edit>, off: nat): seq<Found>
    requires InOrder(edits, from, |text|)
    requires forall i :: 0 <= i < |edits| ==> ParseToken(edits[i].text).Some?
    decreases |edits|
  {
    if edits == [] then Shift(FindAll(text[from..]), off)
    else
      var e, at := edits[0], off + edits[0].start - from;
      var (t, h) := ParseToken(e.text).value;
      Shift(FindAll(text[from..e.start]), off)
      + ([Found(t, h, at, at + |e.text|)] + Expected(text, e.end, edits[1..], at + |e.text|))
  }

  lemma ShiftTwice(fs: seq<Found>, c: nat, d: nat)
    ensures Shift(Shift(fs, c), d) == Shift(fs, c + d)
  {
  }

  lemma {:induction false} FindInserted(text: string, from: nat, edits: seq<Edit>, off: nat)
    requires InOrder(edits, from, |text|)
    requires forall i :: 0 <= i < |edits| ==> ParseToken(edits[i].text).Some?
    ensures Shift(FindAll(Splice(text, from, edits)), off) == Expected(text, from, edits, off)
    decreases |edits|
  {
    hide FindAll, ParseToken, Shift;
    if edits != [] {
      var e := edits[0];
      var kept, rest := text[from..e.start], Splice(text, e.end, edits[1..]);
      var at := off + |kept|;
      var (t, h) := ParseToken(e.text).value;
      FindInserted(text, e.end, edits[1..], at + |e.text|);
      ParseUndoesFormat(e.text, t, h);
      Assoc(kept, e.text, rest);
      ShiftAround(kept, t, h, e.text, rest, off);
    }
  }

  // The tokens around an inserted one, at their offsets in a larger text.
  lemma ShiftAround(kept: string, t: string, h: string, tok: string, rest: string, off: nat)
    requires FormatToken(t, h) == Some(tok)
    ensures var at := off + |kept|;
            Shift(FindAll(kept + tok + rest), off)
            == Shift(FindAll(kept), off) + ([Found(t, h, at, at + |tok|)] + Shift(FindAll(rest), at + |tok|))
  {
    hide FindAll, Shift, FormatToken;
    var one, end := [Found(t, h, |kept|, |kept| + |tok|)], |kept| + |tok|;
    FindAround(kept, t, h, rest);
    ShiftConcat(FindAll(kept) + one, Shift(FindAll(rest), end), off);
    ShiftConcat(FindAll(kept), one, off);
    ShiftTwice(FindAll(rest), end, off);
    ShiftOne(t, h, |kept|, |tok|, off);
    FoundAssoc(Shift(FindAll(kept), off), Shift(one, off), Shift(FindAll(rest), end + off));
  }

  lemma ShiftOne(t: string, h: string, start: nat, len: nat, off: nat)
    ensures Shift([Found(t, h, start, start + len)], off) == [Found(t, h, off + start, off + start + len)]
  {
  }

  predicate SameSlice(text: string, e: Edit) {
    e.start <= e.end <= |text| && e.text == text[e.start..e.end]
  }

  predicate Unchanged(text: string, edits: seq<Edit>) {
    edits == [] || (SameSlice(text, edits[0]) && Unchanged(text, edits[1..]))
  }

  lemma {:induction false} UnchangedAll(text: string, edits: seq<Edit>)
    ensures Unchanged(text, edits) <==> forall e :: e in edits ==> SameSlice(text, e)
    decreases |edits|
  {
    if edits != [] {
      UnchangedAll(text, edits[1..]);
      assert edits == [edits[0]] + edits[1..];
    }
  }

  // Splicing equal-length texts changes nothing exactly when each text is the
  // slice it replaces.
  lemma {:induction false} SpliceIdentity(text: string, from: nat, edits: seq<Edit>)
    requires InOrder(edits, from, |text|)
    requires forall i :: 0 <= i < |edits| ==> |edits[i].text| == edits[i].end - edits[i].start
    ensures |Splice(text, from, edits)| == |text| - from
    ensures Splice(text, from, edits) == text[from..] <==> Unchanged(text, edits)
    decreases |edits|
  {
    if edits != [] {
      var e, rest := edits[0], Splice(text, edits[0].end, edits[1..]);
      assert Splice(text, from, edits) == text[from..e.start] + (e.text + rest);
      SpliceIdentity(text, e.end, edits[1..]);
      hide Splice;
      ThreeParts(text, from, e.start, e.end);
      EqualParts(text[from..e.start], e.text, rest, text[e.start..e.end], text[e.end..]);
    }
  }

  lemma ThreeParts(text: string, from: nat, i: nat, j: nat)
    requires from <= i <= j <= |text|
    ensures text[from..] == text[from..i] + (text[i..j] + text[j..])
  {
  }

  lemma EqualParts(a: string, b: string, c: string, b': string, c': string)
    requires |b| == |b'| && |c| == |c'|
    ensures a + (b + c) == a + (b' + c') <==> b == b' && c == c'
  {
    if a + (b + c) == a + (b' + c') {
      assert (a + (b + c))[|a|..] == b + c && (a + (b' + c'))[|a|..] == b' + c';
      assert (b + c)[..|b|] == b && (b' + c')[..|b|] == b' && (b + c)[|b|..] == c && (b' + c')[|b|..] == c';
    }
  }

  // ---- Through the vault ----

  // The plaintexts that one request can resolve at this moment.
  function Lookup(org: string, db: Db, req: string): map<string, string> {
    var hashes := set k | k in db.tokens && k.req == req :: k.hash;
    map h | h in hashes && Read(org, db, Key(req, h)).Some? :: Read(org, db, Key(req, h)).value
  }

  function Tokens(entries: seq<TokenEntry>): (r: seq<string>)
    ensures |r| == |entries| && forall i :: 0 <= i < |r| ==> r[i] == entries[i].token
  {
    if entries == [] then [] else [entries[0].token] + Tokens(entries[1..])
  }

  function Texts(spans: seq<Span>): (r: seq<string>)
    ensures |r| == |spans| && forall i :: 0 <= i < |r| ==> r[i] == spans[i].text
  {
    if spans == [] then [] else [spans[0].text] + Texts(spans[1..])
  }

  // A token that the plain vault holds was put there with that text.
  lemma {:induction false} LastPut(log: seq<Event>, k: Key)
    requires k in Replay(log) && Replay(log)[k].text.Some?
    ensures exists n :: 0 <= n < |log| && log[n].Put? && log[n].key == k && log[n].text == Replay(log)[k].text.value
    decreases |log|
  {
    var last := |log| - 1;
    if !(log[last].Put? && log[last].key == k) {
      LastPut(log[..last], k);
      var n :| 0 <= n < last && log[..last][n].Put? && log[..last][n].key == k
      && log[..last][n].text == Replay(log)[k].text.value;
      assert log[n] == log[..last][n];
    }
  }

  // Every store of the run under one of these tokens' keys wrote the value that
  // the request's tracker gave the token to.
  ghost predicate StoredAs(log: seq<Event>, req: string, entries: seq<TokenEntry>) {
    forall n, i :: 0 <= n < |log| && 0 <= i < |entries| && log[n].Put? && log[n].key == Key(req, entries[i].hash) ==>
      log[n].text == entries[i].original
  }

  ghost predicate AllLive(db: Db, req: string, entries: seq<TokenEntry>) {
    forall i :: 0 <= i < |entries| ==> Key(req, entries[i].hash) in db.tokens
  }

  lemma LookupOpens(org: string, steps: seq<Step>, s: State, req: string, entries: seq<TokenEntry>, i: nat)
    requires Run(Init(org), steps) == Some(s)
    requires StoredAs(s.log, req, entries) && AllLive(s.db, req, entries) && i < |entries|
    ensures entries[i].hash in Lookup(org, s.db, req)
    ensures Lookup(org, s.db, req)[entries[i].hash] == entries[i].original
  {
    Refinement(org, steps, s);
    var k := Key(req, entries[i].hash);
    LastPut(s.log, k);
    assert k in s.db.tokens && k.req == req;
  }

  // The text a tokenise call returns.
  function TokenizedText(text: string, spans: seq<Span>, entries: seq<TokenEntry>): string
    requires |entries| == |spans| && Fits(text, spans)
  {
    SpliceSpans(text, spans, Tokens(entries))
  }

  // The text with each span replaced by its own text.
  function Normalised(text: string, spans: seq<Span>): string
    requires Fits(text, spans)
  {
    SpliceSpans(text, spans, Texts(spans))
  }

  // No token that the text already holds outside the spans is resolvable.
  ghost predicate Quiet(text: string, spans: seq<Span>, plain: map<string, string>)
    requires Fits(text, spans)
  {
    SpanEditsInOrder(text, spans, Texts(spans));
    KeptInert(text, 0, SpanEdits(spans, Texts(spans)), plain)
  }

  lemma {:induction false} KeptInertRanges(text: string, from: nat, a: seq<Edit>, b: seq<Edit>,
                                           plain: map<string, string>)
    requires InOrder(a, from, |text|) && InOrder(b, from, |text|) && |a| == |b|
    requires forall i :: 0 <= i < |a| ==> a[i].start == b[i].start && a[i].end == b[i].end
    requires KeptInert(text, from, a, plain)
    ensures KeptInert(text, from, b, plain)
    decreases |a|
  {
    hide Inert;
    if a != [] {
      KeptInertRanges(text, a[0].end, a[1..], b[1..], plain);
    }
  }

  // Tokenise a text, let any run of stores, expiries, flushes, DEK creations and
  // rotations happen in any interleaving, and rehydrate while the tokens are
  // live: every span comes back as its text, and nothing else changes.
  lemma EndToEnd(org: string, steps: seq<Step>, s: State, req: string, text: string,
                 spans: seq<Span>, seen: map<string, string>, bases: seq<string>)
    requires Run(Init(org), steps) == Some(s)
    requires Fits(text, spans) && |spans| == |bases| && Assign(seen, spans, bases).Some?
    requires var entries := Assign(seen, spans, bases).value.entries;
             && StoredAs(s.log, req, entries) && AllLive(s.db, req, entries)
    requires Quiet(text, spans, Lookup(org, s.db, req))
    ensures Rehydrated(TokenizedText(text, spans, Assign(seen, spans, bases).value.entries), Lookup(org, s.db, req))
              == Normalised(text, spans)
  {
    hide Rehydrated, Lookup, Splice, KeptInert;
    var entries := Assign(seen, spans, bases).value.entries;
    var edits, plain := SpanEdits(spans, Tokens(entries)), Lookup(org, s.db, req);
    SpanEditsInOrder(text, spans, Tokens(entries));
    SpanEditsInOrder(text, spans, Texts(spans));
    EntriesOpen(org, steps, s, req, spans, seen, bases);
    KeptInertRanges(text, 0, SpanEdits(spans, Texts(spans)), edits, plain);
    RoundTrip(text, 0, edits, Texts(spans), plain);
    assert Retext(edits, Texts(spans)) == SpanEdits(spans, Texts(spans));
  }

  lemma EntriesOpen(org: string, steps: seq<Step>, s: State, req: string,
                    spans: seq<Span>, seen: map<string, string>, bases: seq<string>)
    requires Run(Init(org), steps) == Some(s)
    requires |spans| == |bases| && Assign(seen, spans, bases).Some?
    requires var entries := Assign(seen, spans, bases).value.entries;
             && StoredAs(s.log, req, entries) && AllLive(s.db, req, entries)
    ensures var entries := Assign(seen, spans, bases).value.entries;
            forall i :: 0 <= i < |spans| ==> Opens(entries[i].token, spans[i].text, Lookup(org, s.db, req))
  {
    hide Lookup;
    var a := Assign(seen, spans, bases).value;
    AssignSound(Assigned([], seen, map[]), spans, bases);
    forall i | 0 <= i < |spans| ensures Opens(a.entries[i].token, spans[i].text, Lookup(org, s.db, req)) {
      LookupOpens(org, steps, s, req, a.entries, i);
      EntryHash(a.seen, a.entries[i]);
    }
  }

  lemma NormalisedIdentity(text: string, spans: seq<Span>)
    requires Fits(text, spans) && AllSized(text, spans)
    ensures Normalised(text, spans) == text <==> AllSlices(text, spans)
  {
    var edits := SpanEdits(spans, Texts(spans));
    SpanEditsInOrder(text, spans, Texts(spans));
    forall i | 0 <= i < |edits|
      ensures |edits[i].text| == edits[i].end - edits[i].start
      ensures SameSlice(text, edits[i]) <==> IsSlice(text, spans[i])
    {
      assert spans[i] in spans;
    }
    SpliceIdentity(text, 0, edits);
    assert text[0..] == text;
    UnchangedAll(text, edits);
    assert AllSlices(text, spans) <==> forall i :: 0 <= i < |spans| ==> IsSlice(text, spans[i]);
    assert (forall e :: e in edits ==> SameSlice(text, e))
      <==> forall i :: 0 <= i < |edits| ==> SameSlice(text, edits[i]);
  }

  lemma FusedFits(text: string, detected: seq<Span>)
    requires AllValid(detected) && AllSlices(text, detected)
    ensures Fits(text, Fuse(detected)) && AllSized(text, Fuse(detected))
  {
    FuseShape(detected);
    FusedSlices(text, detected);
  }

  // The text with each fused span replaced by its own text is the original if
  // and only if every one-character gap that fusion merged over is a space.
  lemma NormalisedExact(text: string, detected: seq<Span>)
    requires AllValid(detected) && AllSlices(text, detected)
    ensures (FusedFits(text, detected);
             Normalised(text, Fuse(detected)) == text <==> SpacesBridged(text, Resolve(Sort(detected))))
  {
    hide Splice, Fuse;
    FusedFits(text, detected);
    FusedSlices(text, detected);
    NormalisedIdentity(text, Fuse(detected));
  }
}
