// Boundary refinement of predicted entities: punctuation is trimmed off the
// ends, then neighbours of one kind are merged over a narrow gap.
module NerFusion {
  import opened Wrappers

  // The text of an incoming entity is never read; it is set last, from the offsets.
  datatype Span = Span(kind: string, s: nat, e: nat)
  datatype Entity = Entity(text: string, span: Span)

  const TRAILING := {',', ':', ';', ']', '}', '>', '?', '\U{2014}', '\U{2013}', '!'}
  const LEADING := {'[', '{', '<'}
  const QUOTES := {'\'', '\U{2019}'}
  const ABBREVS := {
    "dott.", "ing.", "avv.", "geom.", "prof.", "arch.", "rag.",
    "sig.", "sigg.", "spett.", "ecc.", "ecc.."
  }

  // ---- Trimming ----

  predicate Upper(c: char) { 'A' <= c <= 'Z' }

  predicate Letter(c: char) { Upper(c) || 'a' <= c <= 'z' }

  function Lower(w: string): string {
    seq(|w|, i requires 0 <= i < |w| => if Upper(w[i]) then (w[i] as int + 32) as char else w[i])
  }

  // w[..n] ends in an upper-case letter followed by dot-letter pairs.
  predicate Dotted(w: string, n: nat)
    requires n <= |w|
  {
    n >= 3 && Letter(w[n - 1]) && w[n - 2] == '.' && (Upper(w[n - 3]) || Dotted(w, n - 2))
  }

  // Where the last space-separated word starts.
  function LastWord(w: string): (i: nat)
    ensures i <= |w| && ' ' !in w[i..] && (i > 0 ==> w[i - 1] == ' ')
  {
    if w == [] || w[|w| - 1] == ' ' then |w| else LastWord(w[..|w| - 1])
  }

  predicate Known(w: string) { Lower(w[LastWord(w)..]) in ABBREVS }

  // A final period that belongs to an abbreviation.
  predicate Abbreviated(w: string)
    requires w != []
  {
    Dotted(w, |w| - 1) || Known(w)
  }

  predicate DropsLead(text: string, i: nat)
    requires i < |text|
  {
    || text[i] in LEADING
    || (text[i] in {'"', '('} && (i == 0 || text[i - 1] in {' ', '\n', '\t'}))
  }

  // How many characters one turn of the trailing loop removes from text[s..e].
  function DropsTail(text: string, s: nat, e: nat, alpha: char -> bool): (k: nat)
    requires s < e <= |text|
    ensures k <= 2 && s + k <= e
  {
    var c := text[e - 1];
    if c in TRAILING then 1
    else if c == '.' then (if Abbreviated(text[s..e]) then 0 else 1)
    else if c == ')' && '(' !in text[s..e - 1] then 1
    else if c == 's' && e - s >= 3 && text[e - 2] in QUOTES && alpha(text[e - 3]) then 2
    else if c in QUOTES then (if e - s >= 2 && alpha(text[e - 2]) then 0 else 1)
    else if c == '"' then 1
    else 0
  }

  function TrimStart(text: string, s: nat, e: nat): (r: nat)
    requires e <= |text|
    ensures s <= r && (r <= e || r == s)
    ensures forall i :: s <= i < r ==> DropsLead(text, i)
    ensures r < e ==> !DropsLead(text, r)
    decreases e - s
  {
    if s < e && DropsLead(text, s) then TrimStart(text, s + 1, e) else s
  }

  function TrimEnd(text: string, s: nat, e: nat, alpha: char -> bool): (r: nat)
    requires e <= |text|
    ensures r <= e && (s <= r || r == e)
    ensures s < r ==> DropsTail(text, s, r, alpha) == 0
    decreases e
  {
    if s < e && DropsTail(text, s, e, alpha) > 0 then TrimEnd(text, s, e - DropsTail(text, s, e, alpha), alpha) else e
  }

  method TrimPunctuation(start: nat, end: nat, text: string, alpha: char -> bool) returns (s: nat, e: nat)
    requires end <= |text|
    ensures s == TrimStart(text, start, end) && e == TrimEnd(text, s, end, alpha)
  {
    s, e := start, end;
    while s < e && DropsLead(text, s)
      invariant start <= s && TrimStart(text, start, end) == TrimStart(text, s, end)
      decreases end - s
    {
      s := s + 1;
    }
    while e > s && DropsTail(text, s, e, alpha) > 0
      invariant e <= end && TrimEnd(text, s, end, alpha) == TrimEnd(text, s, e, alpha)
    {
      e := e - DropsTail(text, s, e, alpha);
    }
  }

  // A span that trimming leaves as it is.
  predicate Stable(text: string, s: nat, e: nat, alpha: char -> bool)
    requires s < e <= |text|
  {
    !DropsLead(text, s) && DropsTail(text, s, e, alpha) == 0
  }

  // What is left lies within the span, and trimming it again changes nothing;
  // trimming changes nothing exactly when neither end can be cut.
  lemma TrimIdempotent(text: string, s: nat, e: nat, alpha: char -> bool)
    requires e <= |text|
    ensures var s' := TrimStart(text, s, e);
            var e' := TrimEnd(text, s', e, alpha);
            && s <= s' && e' <= e
            && TrimStart(text, s', e') == s' && TrimEnd(text, s', e', alpha) == e'
            && (s' < e' ==> Stable(text, s', e', alpha))
            && (s < e ==> (s' == s && e' == e <==> Stable(text, s, e, alpha)))
  {
  }

  // ---- Merging ----

  predicate ShouldMerge(a: Span, b: Span, text: string)
  {
    var gap := Slice(text, a.e, b.s);
    && '\n' !in gap
    && gap != []
    && (if a.kind == "ind" then |gap| <= 2 && forall i :: 0 <= i < |gap| ==> gap[i] in {' ', ','} else gap == " ")
  }

  predicate Joins(a: Span, b: Span, text: string)
  {
    a.kind == b.kind && ShouldMerge(a, b, text)
  }

  predicate Bounded(xs: seq<Span>, text: string) {
    forall i :: 0 <= i < |xs| ==> xs[i].s < xs[i].e <= |text|
  }

  predicate InBounds(xs: seq<Span>, text: string) {
    forall i :: 0 <= i < |xs| ==> xs[i].e <= |text|
  }

  predicate Disjoint(xs: seq<Span>) {
    && (forall i :: 0 <= i < |xs| ==> xs[i].s <= xs[i].e)
    && (forall i, j :: 0 <= i < j < |xs| ==> xs[i].e <= xs[j].s)
  }

  function Cut(x: Span, text: string, alpha: char -> bool): Span
    requires x.e <= |text|
  {
    var s := TrimStart(text, x.s, x.e);
    var e := TrimEnd(text, s, x.e, alpha);
    Span(x.kind, s, e)
  }

  // Step 1: of the first n entities, the trimmed ones that are not empty.
  function Trimmed(xs: seq<Span>, n: nat, text: string, alpha: char -> bool): seq<Span>
    requires InBounds(xs, text) && n <= |xs|
  {
    if n == 0 then []
    else
      var r, c := Trimmed(xs, n - 1, text, alpha), Cut(xs[n - 1], text, alpha);
      if c.s < c.e then r + [c] else r
  }

  // Step 2: of the first n entities, each joins the last output or starts a new one.
  function Merged(xs: seq<Span>, n: nat, text: string): (r: seq<Span>)
    requires n <= |xs|
    ensures r == [] <==> n == 0
  {
    if n == 0 then [] else Extend(Merged(xs, n - 1, text), xs[n - 1], text)
  }

  function Extend(r: seq<Span>, x: Span, text: string): seq<Span> {
    if r != [] && Joins(r[|r| - 1], x, text)
    then r[..|r| - 1] + [Glue(r[|r| - 1], x)]
    else r + [x]
  }

  function Glue(a: Span, b: Span): Span { Span(a.kind, a.s, b.e) }

  function Fused(entities: seq<Span>, text: string, alpha: char -> bool): seq<Span>
    requires InBounds(entities, text)
  {
    var trimmed := Trimmed(entities, |entities|, text, alpha);
    Merged(trimmed, |trimmed|, text)
  }

  lemma TrimmedNext(xs: seq<Span>, n: nat, text: string, alpha: char -> bool)
    requires InBounds(xs, text) && n <= |xs|
    ensures Trimmed(xs, 0, text, alpha) == []
    ensures n < |xs| ==>
              && xs[n].e <= |text|
              && var c := Cut(xs[n], text, alpha);
                 Trimmed(xs, n + 1, text, alpha) == Trimmed(xs, n, text, alpha) + if c.s < c.e then [c] else []
  {
    hide Cut;
  }

  method TrimAll(entities: seq<Span>, text: string, alpha: char -> bool) returns (trimmed: seq<Span>)
    requires InBounds(entities, text)
    ensures trimmed == Trimmed(entities, |entities|, text, alpha)
  {
    hide TrimStart, TrimEnd, Trimmed, InBounds;
    TrimmedNext(entities, 0, text, alpha);
    trimmed := [];
    for i := 0 to |entities|
      invariant trimmed == Trimmed(entities, i, text, alpha)
    {
      var ent := entities[i];
      TrimmedNext(entities, i, text, alpha);
      var s, e := TrimPunctuation(ent.s, ent.e, text, alpha);
      if e > s {
        trimmed := trimmed + [Span(ent.kind, s, e)];
      }
    }
  }

  lemma MergedNext(xs: seq<Span>, text: string)
    ensures Merged(xs, 0, text) == []
    ensures xs != [] ==> Merged(xs, 1, text) == [xs[0]]
    ensures forall n :: 0 < n < |xs| ==> Merged(xs, n + 1, text) == Extend(Merged(xs, n, text), xs[n], text)
  {
  }

  method MergeAll(trimmed: seq<Span>, text: string) returns (merged: seq<Span>)
    ensures merged == Merged(trimmed, |trimmed|, text)
  {
    hide Merged, ShouldMerge;
    MergedNext(trimmed, text);
    if trimmed == [] {
      return [];
    }
    merged := [trimmed[0]];
    for i := 1 to |trimmed|
      invariant merged == Merged(trimmed, i, text)
    {
      var prev, ent := merged[|merged| - 1], trimmed[i];
      assert Merged(trimmed, i + 1, text) == Extend(merged, ent, text);
      if prev.kind == ent.kind && ShouldMerge(prev, ent, text) {
        merged := merged[..|merged| - 1] + [Span(prev.kind, prev.s, ent.e)];
      } else {
        merged := merged + [ent];
      }
    }
  }

  method FuseSpans(entities: seq<Span>, text: string, alpha: char -> bool) returns (r: seq<Entity>)
    requires InBounds(entities, text)
    ensures var fused := Fused(entities, text, alpha);
            |r| == |fused| && forall i :: 0 <= i < |r| ==> r[i] == Entity(Slice(text, fused[i].s, fused[i].e), fused[i])
  {
    hide Slice;
    var trimmed := TrimAll(entities, text, alpha);
    var merged := MergeAll(trimmed, text);
    r := [];
    for i := 0 to |merged|
      invariant |r| == i && forall k :: 0 <= k < i ==> r[k] == Entity(Slice(text, merged[k].s, merged[k].e), merged[k])
    {
      r := r + [Entity(Slice(text, merged[i].s, merged[i].e), merged[i])];
    }
  }

  // What a trimmed entity becomes: nothing, or a stable span within it.
  lemma CutShape(x: Span, text: string, alpha: char -> bool)
    requires x.s <= x.e <= |text|
    ensures var c := Cut(x, text, alpha);
            x.s <= c.s && c.e <= x.e && c.kind == x.kind && (c.s < c.e ==> Stable(text, c.s, c.e, alpha))
  {
    TrimIdempotent(text, x.s, x.e, alpha);
  }

  // Non-empty, in bounds, disjoint, ended by limit, and trimming no further.
  ghost predicate Shaped(r: seq<Span>, limit: nat, text: string, alpha: char -> bool) {
    && Bounded(r, text) && Disjoint(r)
    && (forall i :: 0 <= i < |r| ==> r[i].e <= limit && Stable(text, r[i].s, r[i].e, alpha))
  }

  lemma ShapedMore(r: seq<Span>, limit: nat, c: Span, text: string, alpha: char -> bool)
    requires Shaped(r, limit, text, alpha) && limit <= c.s < c.e <= |text| && Stable(text, c.s, c.e, alpha)
    ensures Shaped(r + [c], c.e, text, alpha)
  {
    hide Stable;
  }

  function EndOf(xs: seq<Span>, n: nat): nat
    requires n <= |xs|
  {
    if n == 0 then 0 else xs[n - 1].e
  }

  lemma EndBefore(xs: seq<Span>, n: nat)
    requires Disjoint(xs) && n < |xs|
    ensures EndOf(xs, n) <= xs[n].s <= xs[n].e
  {
  }

  lemma ShapedLonger(r: seq<Span>, limit: nat, further: nat, text: string, alpha: char -> bool)
    requires Shaped(r, limit, text, alpha) && limit <= further
    ensures Shaped(r, further, text, alpha)
  {
    hide Stable;
  }

  lemma NothingTrimmed(text: string, alpha: char -> bool)
    ensures Shaped([], 0, text, alpha)
  {
  }

  lemma {:induction false} TrimmedShape(xs: seq<Span>, n: nat, text: string, alpha: char -> bool)
    requires InBounds(xs, text) && Disjoint(xs) && n <= |xs|
    ensures Shaped(Trimmed(xs, n, text, alpha), EndOf(xs, n), text, alpha)
  {
    if n > 0 {
      hide Stable, Cut, Bounded, Disjoint, Shaped;
      TrimmedShape(xs, n - 1, text, alpha);
      EndBefore(xs, n - 1);
      CutShape(xs[n - 1], text, alpha);
      var r, c := Trimmed(xs, n - 1, text, alpha), Cut(xs[n - 1], text, alpha);
      if c.s < c.e {
        ShapedMore(r, EndOf(xs, n - 1), c, text, alpha);
        ShapedLonger(r + [c], c.e, EndOf(xs, n), text, alpha);
      } else {
        ShapedLonger(r, EndOf(xs, n - 1), EndOf(xs, n), text, alpha);
      }
    } else {
      NothingTrimmed(text, alpha);
    }
  }

  // ---- What a merge keeps ----

  // The last output ends where the last input ends.
  lemma MergedLast(xs: seq<Span>, n: nat, text: string)
    requires 0 < n <= |xs|
    ensures var last := Merged(xs, n, text)[|Merged(xs, n, text)| - 1];
            last.e == xs[n - 1].e && last.kind == xs[n - 1].kind
  {
    hide ShouldMerge;
  }

  predicate IsHead(xs: seq<Span>, text: string, i: nat)
    requires i < |xs|
  {
    i == 0 || !Joins(xs[i - 1], xs[i], text)
  }

  // Those of the first n inputs that do not join their predecessor.
  function Heads(xs: seq<Span>, n: nat, text: string): (r: seq<int>)
    requires n <= |xs|
  {
    if n == 0 then [] else Heads(xs, n - 1, text) + if IsHead(xs, text, n - 1) then [n - 1] else []
  }

  lemma {:induction false} HeadsExact(xs: seq<Span>, n: nat, text: string, i: nat)
    requires i < |xs| && n <= |xs|
    ensures i in Heads(xs, n, text) <==> i < n && IsHead(xs, text, i)
  {
    hide IsHead;
    if n > 0 {
      HeadsExact(xs, n - 1, text, i);
    }
  }

  // The last input of group q, of n inputs.
  function Foot(heads: seq<int>, n: nat, q: nat): int {
    if q + 1 < |heads| then heads[q + 1] - 1 else n - 1
  }

  // Output q runs from the start of group q's head to the end of its foot.
  predicate GroupAt(xs: seq<Span>, n: nat, text: string, heads: seq<int>, x: Span, q: nat)
    requires n <= |xs| && q < |heads|
  {
    var foot := Foot(heads, n, q);
    && 0 <= heads[q] <= foot < n
    && x == Glue(xs[heads[q]], xs[foot]) && x.kind == xs[foot].kind
    && (heads[q] < foot ==> !IsHead(xs, text, foot))
  }

  predicate Grouped(xs: seq<Span>, n: nat, text: string, heads: seq<int>, r: seq<Span>)
    requires n <= |xs|
  {
    |r| == |heads| && forall q :: 0 <= q < |r| ==> GroupAt(xs, n, text, heads, r[q], q)
  }

  lemma JoinsAlike(a: Span, a': Span, b: Span, b': Span, text: string)
    requires a.e == a'.e && a.kind == a'.kind && b.s == b'.s && b.kind == b'.kind
    ensures Joins(a, b, text) == Joins(a', b', text)
  {
  }

  lemma GroupedJoin(xs: seq<Span>, n: nat, text: string, heads: seq<int>, r: seq<Span>)
    requires n < |xs| && !IsHead(xs, text, n) && Grouped(xs, n, text, heads, r) && r != []
             && r[|r| - 1].kind == xs[n].kind
    ensures Grouped(xs, n + 1, text, heads, r[..|r| - 1] + [Glue(r[|r| - 1], xs[n])])
  {
    hide IsHead;
    var k, r' := |r| - 1, r[..|r| - 1] + [Glue(r[|r| - 1], xs[n])];
    assert GroupAt(xs, n, text, heads, r[k], k);
    forall q | 0 <= q < |r'| ensures GroupAt(xs, n + 1, text, heads, r'[q], q) {
      assert GroupAt(xs, n, text, heads, r[q], q);
    }
  }

  lemma GroupedNew(xs: seq<Span>, n: nat, text: string, heads: seq<int>, r: seq<Span>)
    requires n < |xs| && Grouped(xs, n, text, heads, r)
    ensures Grouped(xs, n + 1, text, heads + [n], r + [xs[n]])
  {
    hide IsHead;
    var hs, r' := heads + [n], r + [xs[n]];
    forall q | 0 <= q < |r'| ensures GroupAt(xs, n + 1, text, hs, r'[q], q) {
      if q < |r| {
        assert GroupAt(xs, n, text, heads, r[q], q);
        assert Foot(hs, n + 1, q) == Foot(heads, n, q);
      }
    }
  }

  lemma MergedStep(xs: seq<Span>, n: nat, text: string)
    requires n < |xs|
    ensures var r := Merged(xs, n, text);
            && (!IsHead(xs, text, n) ==> r != [] && r[|r| - 1].kind == xs[n].kind)
            && Merged(xs, n + 1, text)
               == if IsHead(xs, text, n) then r + [xs[n]] else r[..|r| - 1] + [Glue(r[|r| - 1], xs[n])]
  {
    hide ShouldMerge;
    if n > 0 {
      MergedLast(xs, n, text);
      var last := Merged(xs, n, text)[|Merged(xs, n, text)| - 1];
      JoinsAlike(last, xs[n - 1], xs[n], xs[n], text);
    }
  }

  lemma NothingGrouped(xs: seq<Span>, text: string)
    ensures Grouped(xs, 0, text, Heads(xs, 0, text), Merged(xs, 0, text))
  {
  }

  lemma {:induction false} MergedExact(xs: seq<Span>, n: nat, text: string)
    requires n <= |xs|
    ensures Grouped(xs, n, text, Heads(xs, n, text), Merged(xs, n, text))
  {
    hide Merged, IsHead, Grouped, Glue;
    if n == 0 {
      NothingGrouped(xs, text);
    } else {
      MergedExact(xs, n - 1, text);
      MergedStep(xs, n - 1, text);
      if IsHead(xs, text, n - 1) {
        GroupedNew(xs, n - 1, text, Heads(xs, n - 1, text), Merged(xs, n - 1, text));
      } else {
        GroupedJoin(xs, n - 1, text, Heads(xs, n - 1, text), Merged(xs, n - 1, text));
        assert Heads(xs, n, text) == Heads(xs, n - 1, text);
      }
    }
  }

  // No two neighbouring outputs could be merged further.
  predicate Apart(r: seq<Span>, text: string) {
    forall q :: 0 < q < |r| ==> !Joins(r[q - 1], r[q], text)
  }

  lemma {:induction false} MergedDisjoint(xs: seq<Span>, n: nat, text: string)
    requires Bounded(xs, text) && Disjoint(xs) && n <= |xs|
    ensures Bounded(Merged(xs, n, text), text) && Disjoint(Merged(xs, n, text))
  {
    if n > 0 {
      hide Joins;
      MergedDisjoint(xs, n - 1, text);
      if n > 1 {
        MergedLast(xs, n - 1, text);
      }
      ExtendDisjoint(Merged(xs, n - 1, text), xs[n - 1], text);
    }
  }

  lemma ExtendDisjoint(r: seq<Span>, x: Span, text: string)
    requires Bounded(r, text) && Disjoint(r) && x.s < x.e <= |text|
    requires r != [] ==> r[|r| - 1].e <= x.s
    ensures Bounded(Extend(r, x, text), text) && Disjoint(Extend(r, x, text))
  {
    hide Joins;
  }

  lemma MergedApart(xs: seq<Span>, text: string, q: nat)
    requires 0 < q < |Merged(xs, |xs|, text)|
    ensures !Joins(Merged(xs, |xs|, text)[q - 1], Merged(xs, |xs|, text)[q], text)
  {
    hide Joins, Heads, Merged, IsHead;
    MergedExact(xs, |xs|, text);
    var heads, r := Heads(xs, |xs|, text), Merged(xs, |xs|, text);
    var h := heads[q];
    assert GroupAt(xs, |xs|, text, heads, r[q - 1], q - 1) && GroupAt(xs, |xs|, text, heads, r[q], q);
    NotJoined(xs, text, h);
    JoinsAlike(xs[h - 1], r[q - 1], xs[h], r[q], text);
  }

  lemma NotJoined(xs: seq<Span>, text: string, h: nat)
    requires h in Heads(xs, |xs|, text) && 0 < h < |xs|
    ensures !Joins(xs[h - 1], xs[h], text)
  {
    HeadsExact(xs, |xs|, text, h);
  }

  // ---- Which characters the outputs cover ----

  predicate Within(x: Span, kind: string, p: nat) { x.kind == kind && x.s <= p < x.e }

  predicate Covers(xs: seq<Span>, n: nat, kind: string, p: nat)
    requires n <= |xs|
  {
    exists i :: 0 <= i < n && Within(xs[i], kind, p)
  }

  // p lies in the gap before input i, and i joins its predecessor over it
  predicate Bridged(xs: seq<Span>, text: string, kind: string, p: nat, i: nat)
    requires 0 < i < |xs|
  {
    Joins(xs[i - 1], xs[i], text) && xs[i].kind == kind && xs[i - 1].e <= p < xs[i].s
  }

  predicate InGap(xs: seq<Span>, n: nat, text: string, kind: string, p: nat)
    requires n <= |xs|
  {
    exists i :: 0 < i < n && Bridged(xs, text, kind, p, i)
  }

  // A bridged gap holds one or two characters, each a space or, in an address,
  // a comma; so no output runs across a line break between two inputs.
  lemma GapAllowed(xs: seq<Span>, text: string, kind: string, p: nat, i: nat)
    requires 0 < i < |xs| && Bridged(xs, text, kind, p, i) && xs[i].s <= |text|
    ensures 0 < xs[i].s - xs[i - 1].e <= 2
    ensures text[p] == ' ' || (kind == "ind" && text[p] == ',')
  {
    var gap := Slice(text, xs[i - 1].e, xs[i].s);
    assert gap == text[xs[i - 1].e..xs[i].s];
    assert gap[p - xs[i - 1].e] == text[p];
  }

  lemma CoversMore(xs: seq<Span>, x: Span, kind: string, p: nat)
    ensures Covers(xs + [x], |xs| + 1, kind, p) <==> Covers(xs, |xs|, kind, p) || Within(x, kind, p)
  {
    hide Within;
    var ys := xs + [x];
    if Covers(xs, |xs|, kind, p) {
      var i :| 0 <= i < |xs| && Within(xs[i], kind, p);
      assert ys[i] == xs[i];
    }
    assert ys[|xs|] == x;
  }

  lemma GlueCovers(r: seq<Span>, x: Span, kind: string, p: nat)
    requires r != [] && r[|r| - 1].s <= r[|r| - 1].e <= x.s <= x.e && r[|r| - 1].kind == x.kind
    ensures var last := r[|r| - 1];
            var glued := r[..|r| - 1] + [Glue(last, x)];
            Covers(glued, |r|, kind, p)
            <==> Covers(r, |r|, kind, p) || Within(x, kind, p) || (kind == x.kind && last.e <= p < x.s)
  {
    hide Covers;
    var n := |r| - 1;
    assert r == r[..n] + [r[n]];
    CoversMore(r[..n], r[n], kind, p);
    CoversMore(r[..n], Glue(r[n], x), kind, p);
  }

  lemma InGapMore(xs: seq<Span>, n: nat, text: string, kind: string, p: nat)
    requires 0 < n <= |xs|
    ensures InGap(xs, n, text, kind, p)
       <==> InGap(xs, n - 1, text, kind, p)
            || (n > 1 && !IsHead(xs, text, n - 1) && xs[n - 1].kind == kind && xs[n - 2].e <= p < xs[n - 1].s)
  {
    hide Joins;
    if InGap(xs, n, text, kind, p) {
      var i :| 0 < i < n && Bridged(xs, text, kind, p, i);
    }
    assert n > 1 && !IsHead(xs, text, n - 1) && xs[n - 1].kind == kind && xs[n - 2].e <= p < xs[n - 1].s
           ==> Bridged(xs, text, kind, p, n - 1);
  }

  lemma NothingCovered(xs: seq<Span>, text: string, kind: string, p: nat)
    ensures Merged(xs, 0, text) == [] && !InGap(xs, 0, text, kind, p)
  {
  }

  // A character is in an output of some kind exactly when it was in an input of
  // that kind or lies in the gap between two joined inputs of that kind.
  lemma {:induction false} MergeCovers(xs: seq<Span>, n: nat, text: string, kind: string, p: nat)
    requires Bounded(xs, text) && Disjoint(xs) && n <= |xs|
    ensures Covers(Merged(xs, n, text), |Merged(xs, n, text)|, kind, p)
       <==> Covers(xs, n, kind, p) || InGap(xs, n, text, kind, p)
  {
    hide Joins, Within, Merged, IsHead, InGap;
    if n == 0 {
      NothingCovered(xs, text, kind, p);
    } else {
      MergeCovers(xs, n - 1, text, kind, p);
      InGapMore(xs, n, text, kind, p);
      MergedStep(xs, n - 1, text);
      var r, x := Merged(xs, n - 1, text), xs[n - 1];
      if IsHead(xs, text, n - 1) {
        CoversMore(r, x, kind, p);
      } else {
        MergedLast(xs, n - 1, text);
        MergedDisjoint(xs, n - 1, text);
        GlueCovers(r, x, kind, p);
      }
    }
  }

  // ---- Fusing twice ----

  lemma MergedLength(xs: seq<Span>, n: nat, text: string)
    requires n <= |xs|
    ensures |Merged(xs, n, text)| <= n
    ensures |Merged(xs, n, text)| == n ==> Merged(xs, n, text) == xs[..n]
  {
    hide Joins;
  }

  lemma ApartMerges(xs: seq<Span>, n: nat, text: string)
    requires n <= |xs| && Apart(xs, text)
    ensures Merged(xs, n, text) == xs[..n]
  {
    hide Joins;
  }

  predicate AllStable(xs: seq<Span>, text: string, alpha: char -> bool)
    requires Bounded(xs, text)
  {
    forall i :: 0 <= i < |xs| ==> Stable(text, xs[i].s, xs[i].e, alpha)
  }

  lemma StableCut(x: Span, text: string, alpha: char -> bool)
    requires x.s < x.e <= |text| && Stable(text, x.s, x.e, alpha)
    ensures Cut(x, text, alpha) == x
  {
    TrimIdempotent(text, x.s, x.e, alpha);
  }

  lemma {:induction false} StableTrims(xs: seq<Span>, n: nat, text: string, alpha: char -> bool)
    requires Bounded(xs, text) && AllStable(xs, text, alpha) && n <= |xs|
    ensures Trimmed(xs, n, text, alpha) == xs[..n]
  {
    if n > 0 {
      hide Stable, Cut, Trimmed;
      StableTrims(xs, n - 1, text, alpha);
      TrimmedNext(xs, n - 1, text, alpha);
      StableCut(xs[n - 1], text, alpha);
    } else {
      TrimmedNext(xs, 0, text, alpha);
    }
  }

  lemma TrimmedLength(xs: seq<Span>, n: nat, text: string, alpha: char -> bool)
    requires InBounds(xs, text) && n <= |xs|
    ensures |Trimmed(xs, n, text, alpha)| <= n
  {
    hide Cut;
  }

  // Fusing again changes nothing exactly when no output can be trimmed.
  lemma FuseAgain(xs: seq<Span>, text: string, alpha: char -> bool)
    requires InBounds(xs, text) && Disjoint(xs)
    ensures var r := Fused(xs, text, alpha);
            && Bounded(r, text)
            && (Fused(r, text, alpha) == r <==> AllStable(r, text, alpha))
  {
    hide Trimmed, Merged, Joins, Stable;
    TrimmedShape(xs, |xs|, text, alpha);
    var ts := Trimmed(xs, |xs|, text, alpha);
    MergedDisjoint(ts, |ts|, text);
    var r := Merged(ts, |ts|, text);
    TrimmedShape(r, |r|, text, alpha);
    var again := Trimmed(r, |r|, text, alpha);
    TrimmedLength(r, |r|, text, alpha);
    MergedLength(again, |again|, text);
    if AllStable(r, text, alpha) {
      StableTrims(r, |r|, text, alpha);
      forall q | 0 < q < |r| ensures !Joins(r[q - 1], r[q], text) {
        MergedApart(ts, text, q);
      }
      ApartMerges(r, |r|, text);
      assert r[..|r|] == r;
    } else {
      assert again[..|again|] == again;
    }
  }

  lemma AbbrevLetters(a: string)
    requires a in ABBREVS
    ensures |a| >= 4 && a[|a| - 1] == '.' && a[|a| - 3] != '.'
    ensures forall i :: 0 <= i < |a| ==> a[i] != ' ' && a[i] != ','
  {
  }

  lemma AbbrevShape(v: string)
    requires Lower(v) in ABBREVS
    ensures |v| >= 4 && v[|v| - 1] == '.' && v[|v| - 3] != '.' && ' ' !in v && ',' !in v
  {
    var a := Lower(v);
    AbbrevLetters(a);
    assert a[|v| - 1] == '.' && a[|v| - 3] != '.';
    forall i | 0 <= i < |v| ensures v[i] != ' ' && v[i] != ',' {
      assert a[i] != ' ' && a[i] != ',';
    }
  }

  lemma {:induction false} DottedMore(pre: string, w: string, n: nat)
    requires n <= |w| && Dotted(w, n)
    ensures Dotted(pre + w, |pre| + n)
    decreases n
  {
    if !Upper(w[n - 3]) {
      DottedMore(pre, w, n - 2);
    }
  }

  lemma LastWordUnique(w: string, i: nat)
    requires i <= |w| && ' ' !in w[i..] && (i > 0 ==> w[i - 1] == ' ')
    ensures LastWord(w) == i
  {
  }

  // Whether the last word is a known abbreviation changes, when text is put in
  // front, only for a comma before a single word.
  lemma KnownMore(pre: string, w: string)
    requires pre != [] && pre[|pre| - 1] in {' ', ','}
    ensures Known(pre + w) <==> Known(w) && !(pre[|pre| - 1] == ',' && Lower(w) in ABBREVS)
  {
    var i, u := LastWord(w), pre + w;
    var m := |pre|;
    if i > 0 || pre[m - 1] == ' ' {
      assert u[m + i..] == w[i..];
      LastWordUnique(u, m + i);
      if Lower(w) in ABBREVS && i > 0 {
        AbbrevShape(w);
      }
    } else {
      assert w[0..] == w;
      var j := LastWord(u);
      assert j < m && u[j..][m - 1 - j] == ',';
      if Known(u) {
        AbbrevShape(u[j..]);
      }
    }
  }

  // Spaces and commas are not letters.
  predicate Plain(alpha: char -> bool) { !alpha(' ') && !alpha(',') }

  lemma AbbreviatedMore(pre: string, w: string)
    requires pre != [] && pre[|pre| - 1] in {' ', ','} && w != [] && Abbreviated(w)
    ensures Abbreviated(pre + w) <==> !(pre[|pre| - 1] == ',' && Lower(w) in ABBREVS)
  {
    KnownMore(pre, w);
    if Lower(w) in ABBREVS {
      AbbrevShape(w);
      assert (pre + w)[|pre| + |w| - 3] == w[|w| - 3];
    }
    if Dotted(w, |w| - 1) {
      DottedMore(pre, w, |w| - 1);
    }
  }

  // A span whose tail cannot be cut keeps that when it grows to the left over a
  // space or comma, unless a comma comes to touch a known abbreviation.
  lemma TailGrows(text: string, s0: nat, s: nat, e: nat, alpha: char -> bool)
    requires s0 < s < e <= |text| && text[s - 1] in {' ', ','} && Plain(alpha)
    requires DropsTail(text, s, e, alpha) == 0
    ensures DropsTail(text, s0, e, alpha) == 0 <==> !(text[s - 1] == ',' && Lower(text[s..e]) in ABBREVS)
  {
    var pre, w, c := text[s0..s], text[s..e], text[e - 1];
    assert pre + w == text[s0..e];
    assert pre[|pre| - 1] == text[s - 1] && w[|w| - 1] == c;
    hide Dotted, Known, Lower;
    if c == '.' {
      AbbreviatedMore(pre, w);
    } else {
      if Lower(w) in ABBREVS {
        AbbrevShape(w);
        assert false;
      }
      hide Abbreviated;
      if c == ')' {
        assert text[s0..e - 1] == text[s0..s] + text[s..e - 1];
      }
    }
  }

  // Trimmed entity i ends a group of several, and is a known abbreviation that a
  // comma separates from the one before.
  predicate Frail(ts: seq<Span>, text: string, i: nat)
    requires i < |ts|
  {
    && !IsHead(ts, text, i)
    && (i + 1 < |ts| ==> IsHead(ts, text, i + 1))
    && 0 < ts[i].s <= |text| && text[ts[i].s - 1] == ','
    && Lower(Slice(text, ts[i].s, ts[i].e)) in ABBREVS
  }

  lemma GroupStable(ts: seq<Span>, text: string, alpha: char -> bool, x: Span, q: nat)
    requires Bounded(ts, text) && Disjoint(ts) && AllStable(ts, text, alpha) && Plain(alpha)
    requires var heads := Heads(ts, |ts|, text); q < |heads| && GroupAt(ts, |ts|, text, heads, x, q)
    ensures var foot := Foot(Heads(ts, |ts|, text), |ts|, q);
            x.s < x.e <= |text| && (Stable(text, x.s, x.e, alpha) <==> !Frail(ts, text, foot))
  {
    hide Heads, DropsTail, Lower, ShouldMerge;
    var heads := Heads(ts, |ts|, text);
    var h, foot := heads[q], Foot(heads, |ts|, q);
    assert h in heads;
    HeadsExact(ts, |ts|, text, h);
    if foot + 1 < |ts| {
      assert foot + 1 in heads;
      HeadsExact(ts, |ts|, text, foot + 1);
    }
    if h < foot {
      BeforeJoined(ts, text, foot);
      TailGrows(text, ts[h].s, ts[foot].s, ts[foot].e, alpha);
    }
  }

  lemma BeforeJoined(ts: seq<Span>, text: string, i: nat)
    requires Bounded(ts, text) && 0 < i < |ts| && !IsHead(ts, text, i)
    ensures ts[i - 1].e < ts[i].s && text[ts[i].s - 1] in {' ', ','}
  {
    var gap := Slice(text, ts[i - 1].e, ts[i].s);
    assert gap == text[ts[i - 1].e..ts[i].s];
    assert gap[|gap| - 1] == text[ts[i].s - 1];
  }

  // The group whose foot is i.
  lemma {:induction false} FootOf(ts: seq<Span>, n: nat, text: string, i: nat) returns (q: nat)
    requires i < n <= |ts| && (i + 1 < n ==> IsHead(ts, text, i + 1))
    ensures q < |Heads(ts, n, text)| && Foot(Heads(ts, n, text), n, q) == i
  {
    hide IsHead;
    var heads := Heads(ts, n, text);
    FirstHead(ts, n, text);
    if i + 1 == n {
      q := |heads| - 1;
    } else {
      HeadsExact(ts, n, text, i + 1);
      var j :| 0 <= j < |heads| && heads[j] == i + 1;
      q := j - 1;
    }
  }

  lemma {:induction false} FirstHead(ts: seq<Span>, n: nat, text: string)
    requires 0 < n <= |ts|
    ensures Heads(ts, n, text) != [] && Heads(ts, n, text)[0] == 0
  {
    if n > 1 {
      FirstHead(ts, n - 1, text);
    }
  }

  // Fusing twice equals fusing once exactly when no merged address ends in a
  // known abbreviation that was joined over a comma.
  lemma FuseTwice(xs: seq<Span>, text: string, alpha: char -> bool)
    requires InBounds(xs, text) && Disjoint(xs) && Plain(alpha)
    ensures var ts, r := Trimmed(xs, |xs|, text, alpha), Fused(xs, text, alpha);
            && Bounded(r, text)
            && (Fused(r, text, alpha) == r <==> forall i :: 0 <= i < |ts| ==> !Frail(ts, text, i))
  {
    hide Trimmed, Merged, Heads, Stable, Frail, IsHead, Glue;
    TrimmedShape(xs, |xs|, text, alpha);
    FuseAgain(xs, text, alpha);
    var ts := Trimmed(xs, |xs|, text, alpha);
    var heads, r := Heads(ts, |ts|, text), Merged(ts, |ts|, text);
    MergedExact(ts, |ts|, text);
    forall q | 0 <= q < |r|
      ensures 0 <= Foot(heads, |ts|, q) < |ts|
      ensures Stable(text, r[q].s, r[q].e, alpha) <==> !Frail(ts, text, Foot(heads, |ts|, q))
    {
      assert GroupAt(ts, |ts|, text, heads, r[q], q);
      GroupStable(ts, text, alpha, r[q], q);
    }
    forall i | 0 <= i < |ts| && Frail(ts, text, i) ensures !AllStable(r, text, alpha) {
      var q := FrailFoot(ts, text, i);
      assert !Stable(text, r[q].s, r[q].e, alpha);
    }
  }

  lemma FrailFoot(ts: seq<Span>, text: string, i: nat) returns (q: nat)
    requires i < |ts| && Frail(ts, text, i)
    ensures q < |Heads(ts, |ts|, text)| && Foot(Heads(ts, |ts|, text), |ts|, q) == i
  {
    q := FootOf(ts, |ts|, text, i);
  }

  // The span lies within an input of its kind.
  ghost predicate FromInput(xs: seq<Span>, x: Span) {
    exists i :: 0 <= i < |xs| && xs[i].kind == x.kind && xs[i].s <= x.s && x.e <= xs[i].e
  }

  lemma {:induction false} TrimmedWithin(xs: seq<Span>, n: nat, text: string, alpha: char -> bool, x: Span)
    requires InBounds(xs, text) && Disjoint(xs) && n <= |xs| && x in Trimmed(xs, n, text, alpha)
    ensures FromInput(xs, x)
  {
    hide Cut;
    var c := Cut(xs[n - 1], text, alpha);
    CutShape(xs[n - 1], text, alpha);
    if x != c {
      TrimmedWithin(xs, n - 1, text, alpha, x);
    }
  }

  // Disjoint inputs give disjoint outputs in bounds that could not be merged
  // further, covering the trimmed inputs and the gaps between joined ones; and
  // every trimmed input lies within an input.
  lemma FusedShape(xs: seq<Span>, text: string, alpha: char -> bool)
    requires InBounds(xs, text) && Disjoint(xs)
    ensures var r := Fused(xs, text, alpha); Bounded(r, text) && Disjoint(r) && Apart(r, text)
    ensures var ts, r := Trimmed(xs, |xs|, text, alpha), Fused(xs, text, alpha);
            && (forall x :: x in ts ==> FromInput(xs, x))
            && forall kind, p ::
                 Covers(r, |r|, kind, p) <==> Covers(ts, |ts|, kind, p) || InGap(ts, |ts|, text, kind, p)
  {
    hide Trimmed, Merged, Joins, Stable, Covers, InGap, FromInput;
    TrimmedShape(xs, |xs|, text, alpha);
    var ts := Trimmed(xs, |xs|, text, alpha);
    MergedDisjoint(ts, |ts|, text);
    var r := Merged(ts, |ts|, text);
    forall x | x in ts ensures FromInput(xs, x) {
      TrimmedWithin(xs, |xs|, text, alpha, x);
    }
    forall q | 0 < q < |r| ensures !Joins(r[q - 1], r[q], text) {
      MergedApart(ts, text, q);
    }
    forall kind, p: nat
      ensures Covers(r, |r|, kind, p) <==> Covers(ts, |ts|, kind, p) || InGap(ts, |ts|, text, kind, p)
    {
      MergeCovers(ts, |ts|, text, kind, p);
    }
  }

  const ADDRESS := "x,dott."
  const PIECES := [Span("ind", 0, 1), Span("ind", 2, 7)]

  lemma PiecesStable(alpha: char -> bool)
    ensures Stable(ADDRESS, 0, 1, alpha) && Stable(ADDRESS, 2, 7, alpha)
    ensures ADDRESS[2..7] == "dott." && Lower("dott.") in ABBREVS
  {
    assert ADDRESS[2..7] == "dott.";
    LastWordUnique("dott.", 0);
    assert "dott."[0..] == "dott.";
    assert Lower("dott.") == "dott.";
  }

  lemma PiecesFrail()
    requires ADDRESS[2..7] == "dott." && Lower("dott.") in ABBREVS
    ensures Frail(PIECES, ADDRESS, 1)
  {
    hide Lower;
    assert Slice(ADDRESS, 1, 2) == ",";
  }

  // An address for which fusing twice differs from fusing once.
  lemma AbbreviationAfterComma(alpha: char -> bool)
    requires Plain(alpha)
    ensures InBounds(PIECES, ADDRESS)
    ensures var r := Fused(PIECES, ADDRESS, alpha); Bounded(r, ADDRESS) && Fused(r, ADDRESS, alpha) != r
  {
    hide Stable, Frail, Trimmed, Fused;
    PiecesStable(alpha);
    PiecesFrail();
    StableTrims(PIECES, 2, ADDRESS, alpha);
    assert PIECES[..2] == PIECES;
    FuseTwice(PIECES, ADDRESS, alpha);
  }
}
