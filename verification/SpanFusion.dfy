// Fusion of overlapping detections: sort, resolve overlaps, merge neighbours.
module SpanFusion {
  import Sorting

  datatype Source = Regex | Slm

  datatype Span = Span(start: int, end: int, text: string, piiType: string, source: Source, confidence: real)

  // What the PiiSpan constructor accepts.
  predicate Valid(s: Span) {
    0 <= s.start < s.end && 0.0 <= s.confidence <= 1.0
  }

  predicate AllValid(xs: seq<Span>) {
    forall x :: x in xs ==> Valid(x)
  }

  function Length(s: Span): int { s.end - s.start }

  predicate Overlaps(a: Span, b: Span) {
    a.start < b.end && b.start < a.end
  }

  function Priority(s: Source): nat {
    if s == Regex then 1 else 0
  }

  // ---- Step 1: sort by start, longer first; stable ----

  predicate KeyLeq(a: Span, b: Span) {
    a.start < b.start || (a.start == b.start && Length(a) >= Length(b))
  }

  predicate Sorted(xs: seq<Span>) {
    forall i, j :: 0 <= i < j < |xs| ==> KeyLeq(xs[i], xs[j])
  }

  function Sort(xs: seq<Span>): seq<Span> { Sorting.Sort(KeyLeq, xs) }

  lemma SortSorts(xs: seq<Span>)
    ensures Sorted(Sort(xs)) && multiset(Sort(xs)) == multiset(xs)
    ensures forall i, j :: 0 <= i < j < |Sort(xs)| ==>
              var a, b := Sort(xs)[i], Sort(xs)[j];
              a.start < b.start || (a.start == b.start && a.end >= b.end)
  {
    assert Sorting.Order(KeyLeq);
    Sorting.SortSorts(KeyLeq, xs);
  }

  lemma SortSorted(xs: seq<Span>)
    requires Sorted(xs)
    ensures Sort(xs) == xs
  {
    Sorting.SortSorted(KeyLeq, xs);
  }

  // ---- Step 2: overlap resolution ----

  function Winner(last: Span, cand: Span): Span {
    if Priority(last.source) > Priority(cand.source) then last
    else if Priority(cand.source) > Priority(last.source) then cand
    else if Length(cand) > Length(last) then cand
    else last
  }

  function Absorb(acc: seq<Span>, cand: Span): seq<Span> {
    if acc == [] then [cand]
    else
      var last := acc[|acc| - 1];
      if Overlaps(last, cand) then acc[..|acc| - 1] + [Winner(last, cand)] else acc + [cand]
  }

  function ResolveFrom(acc: seq<Span>, rest: seq<Span>): seq<Span>
    decreases |rest|
  {
    if rest == [] then acc else ResolveFrom(Absorb(acc, rest[0]), rest[1..])
  }

  function Resolve(xs: seq<Span>): seq<Span> { ResolveFrom([], xs) }

  method ResolveOverlapping(spans: seq<Span>) returns (resolved: seq<Span>)
    ensures resolved == Resolve(spans)
  {
    if spans == [] {
      return [];
    }
    resolved := [spans[0]];
    assert Absorb([], spans[0]) == resolved;
    for n := 1 to |spans|
      invariant resolved != [] && ResolveFrom(resolved, spans[n..]) == Resolve(spans)
    {
      var last, cand := resolved[|resolved| - 1], spans[n];
      if !Overlaps(last, cand) {
        resolved := resolved + [cand];
      } else {
        resolved := resolved[..|resolved| - 1] + [Winner(last, cand)];
      }
      assert spans[n..][1..] == spans[n + 1..];
    }
  }

  predicate Disjoint(xs: seq<Span>) {
    forall i, j :: 0 <= i < j < |xs| ==> xs[i].end <= xs[j].start
  }

  predicate StartsBy(acc: seq<Span>, rest: seq<Span>) {
    acc != [] && rest != [] ==> acc[|acc| - 1].start <= rest[0].start
  }

  lemma {:induction false} ResolveDisjoint(acc: seq<Span>, rest: seq<Span>)
    requires AllValid(acc) && AllValid(rest) && Disjoint(acc) && Sorted(rest) && StartsBy(acc, rest)
    ensures AllValid(ResolveFrom(acc, rest)) && Disjoint(ResolveFrom(acc, rest))
    ensures forall x :: x in ResolveFrom(acc, rest) ==> x in acc || x in rest
    decreases |rest|
  {
    if rest != [] {
      assert Valid(rest[0]) && (acc != [] ==> Valid(acc[|acc| - 1]));
      assert |rest| > 1 ==> KeyLeq(rest[0], rest[1]);
      ResolveDisjoint(Absorb(acc, rest[0]), rest[1..]);
    }
  }

  lemma {:induction false} ResolveKeepsDisjoint(acc: seq<Span>, rest: seq<Span>)
    requires Disjoint(acc + rest)
    ensures ResolveFrom(acc, rest) == acc + rest
    decreases |rest|
  {
    if rest == [] {
      assert acc + rest == acc;
    } else {
      if acc != [] {
        assert (acc + rest)[|acc| - 1] == acc[|acc| - 1] && (acc + rest)[|acc|] == rest[0];
      }
      assert Absorb(acc, rest[0]) == acc + [rest[0]];
      assert acc + [rest[0]] + rest[1..] == acc + rest;
      ResolveKeepsDisjoint(acc + [rest[0]], rest[1..]);
    }
  }

  // Regex before slm, then the longer one.
  predicate Better(a: Span, b: Span) {
    (a.source == Regex && b.source == Slm) || (a.source == b.source && a.end - a.start > b.end - b.start)
  }

  predicate Best(xs: seq<Span>, n: nat) {
    && n < |xs|
    && (forall i :: 0 <= i < n ==> Better(xs[n], xs[i]))
    && (forall i :: n < i < |xs| ==> !Better(xs[i], xs[n]))
  }

  // The best detection, earliest in sorted order among equals, survives.
  lemma {:induction false} BestSurvives(acc: seq<Span>, rest: seq<Span>, n: nat)
    requires Best(rest, n) && AllValid(rest)
    requires acc != [] ==> Better(rest[n], acc[|acc| - 1])
    ensures rest[n] in ResolveFrom(acc, rest)
    decreases |rest|
  {
    var acc' := Absorb(acc, rest[0]);
    if n == 0 {
      assert acc'[|acc'| - 1] == rest[0];
      StaysIn(acc', rest[1..], rest[0]);
    } else {
      assert Better(rest[n], rest[0]);
      BestSurvives(acc', rest[1..], n - 1);
    }
  }

  lemma {:induction false} StaysIn(acc: seq<Span>, rest: seq<Span>, b: Span)
    requires b in acc && forall i :: 0 <= i < |rest| ==> !Better(rest[i], b)
    ensures b in ResolveFrom(acc, rest)
    decreases |rest|
  {
    if rest != [] {
      var n :| 0 <= n < |acc| && acc[n] == b;
      assert n < |acc| - 1 ==> acc[..|acc| - 1][n] == b;
      StaysIn(Absorb(acc, rest[0]), rest[1..], b);
    }
  }

  lemma BestOfFusionSurvives(xs: seq<Span>, n: nat)
    requires AllValid(xs) && Best(Sort(xs), n)
    ensures Sort(xs)[n] in Resolve(Sort(xs))
  {
    SortSorts(xs);
    Sorting.SameElements(xs, Sort(xs));
    BestSurvives([], Sort(xs), n);
  }

  // y shares a character with x; a regex detection yields only to a regex one that
  // is at least as long, an slm one to any regex one or one at least as long.
  predicate Beats(y: Span, x: Span) {
    && y.start < x.end && x.start < y.end
    && match x.source
       case Regex => y.source == Regex && y.end - y.start >= x.end - x.start
       case Slm => y.source == Regex || y.end - y.start >= x.end - x.start
  }

  ghost predicate Beaten(x: Span, acc: seq<Span>, rest: seq<Span>) {
    exists y :: (y in acc || y in rest) && y != x && Beats(y, x)
  }

  lemma {:induction false} KeptOrBeaten(acc: seq<Span>, rest: seq<Span>, x: Span)
    requires x in acc || x in rest
    ensures x in ResolveFrom(acc, rest) || Beaten(x, acc, rest)
    decreases |rest|
  {
    if rest != [] {
      var cand, tail, acc' := rest[0], rest[1..], Absorb(acc, rest[0]);
      assert rest == [cand] + tail;
      AbsorbKeeps(acc, cand);
      if x in acc' || x in tail {
        KeptOrBeaten(acc', tail, x);
      } else {
        AbsorbBeats(acc, cand, x);
      }
    }
  }

  lemma AbsorbKeeps(acc: seq<Span>, cand: Span)
    ensures forall y :: y in Absorb(acc, cand) ==> y in acc || y == cand
  {
    hide Overlaps, Winner;
    WinnerIsOne(if acc == [] then cand else acc[|acc| - 1], cand);
  }

  lemma WinnerIsOne(last: Span, cand: Span)
    ensures Winner(last, cand) == last || Winner(last, cand) == cand
  {
  }

  // What is dropped was beaten by the other of the two.
  lemma AbsorbBeats(acc: seq<Span>, cand: Span, x: Span)
    requires (x in acc || x == cand) && x !in Absorb(acc, cand)
    ensures exists y :: (y in acc || y == cand) && y != x && Beats(y, x)
  {
    var n := |acc| - 1;
    assert acc == acc[..n] + [acc[n]];
    var y := Winner(acc[n], cand);
    assert y in Absorb(acc, cand) by { assert Absorb(acc, cand)[n] == y; }
    assert Beats(y, x);
  }

  // A detection that overlap resolution drops shares a character with another one
  // that outranks it: for a regex detection, a regex one at least as long.
  lemma DroppedIsBeaten(xs: seq<Span>, x: Span)
    requires x in xs && x !in Resolve(Sort(xs))
    ensures exists y :: y in xs && y != x && Beats(y, x)
  {
    SortSorts(xs);
    Sorting.SameElements(xs, Sort(xs));
    KeptOrBeaten([], Sort(xs), x);
  }

  // ---- Step 3: merging same-type neighbours ----

  predicate Joinable(last: Span, cur: Span) {
    last.piiType == cur.piiType && 0 <= cur.start - last.end <= 1
  }

  function Fused(last: Span, cur: Span): Span {
    Span(last.start, cur.end,
         last.text + (if cur.start - last.end == 1 then " " else "") + cur.text,
         last.piiType,
         if Priority(last.source) >= Priority(cur.source) then last.source else cur.source,
         (last.confidence + cur.confidence) / 2.0)
  }

  function Extend(acc: seq<Span>, cur: Span): seq<Span> {
    if acc != [] && Joinable(acc[|acc| - 1], cur)
    then acc[..|acc| - 1] + [Fused(acc[|acc| - 1], cur)]
    else acc + [cur]
  }

  function MergeFrom(acc: seq<Span>, rest: seq<Span>): seq<Span>
    decreases |rest|
  {
    if rest == [] then acc else MergeFrom(Extend(acc, rest[0]), rest[1..])
  }

  function Merge(xs: seq<Span>): seq<Span> { MergeFrom([], xs) }

  method MergeAdjacent(spans: seq<Span>) returns (merged: seq<Span>)
    ensures merged == Merge(spans)
  {
    if spans == [] {
      return [];
    }
    merged := [spans[0]];
    assert Extend([], spans[0]) == merged;
    for n := 1 to |spans|
      invariant merged != [] && MergeFrom(merged, spans[n..]) == Merge(spans)
    {
      var last, cur := merged[|merged| - 1], spans[n];
      if last.piiType == cur.piiType && 0 <= cur.start - last.end <= 1 {
        merged := merged[..|merged| - 1] + [Fused(last, cur)];
      } else {
        merged := merged + [cur];
      }
      assert spans[n..][1..] == spans[n + 1..];
    }
  }

  predicate Apart(xs: seq<Span>) {
    forall i :: 0 < i < |xs| ==> !Joinable(xs[i - 1], xs[i])
  }

  predicate EndsBy(acc: seq<Span>, rest: seq<Span>) {
    acc != [] && rest != [] ==> acc[|acc| - 1].end <= rest[0].start
  }

  ghost predicate Mergeable(acc: seq<Span>, rest: seq<Span>) {
    AllValid(acc) && AllValid(rest) && Disjoint(acc) && Disjoint(rest) && EndsBy(acc, rest)
  }

  lemma ExtendShape(acc: seq<Span>, rest: seq<Span>)
    requires Mergeable(acc, rest) && rest != []
    ensures Mergeable(Extend(acc, rest[0]), rest[1..])
    ensures Apart(acc) ==> Apart(Extend(acc, rest[0]))
  {
    assert Valid(rest[0]) && (acc != [] ==> Valid(acc[|acc| - 1]));
    if acc != [] && Joinable(acc[|acc| - 1], rest[0]) {
      assert Valid(Fused(acc[|acc| - 1], rest[0]));
    }
  }

  lemma {:induction false} MergeShape(acc: seq<Span>, rest: seq<Span>)
    requires Mergeable(acc, rest) && Apart(acc)
    ensures AllValid(MergeFrom(acc, rest)) && Disjoint(MergeFrom(acc, rest)) && Apart(MergeFrom(acc, rest))
    decreases |rest|
  {
    if rest != [] {
      ExtendShape(acc, rest);
      MergeShape(Extend(acc, rest[0]), rest[1..]);
    }
  }

  lemma {:induction false} MergeKeepsApart(acc: seq<Span>, rest: seq<Span>)
    requires Apart(acc + rest)
    ensures MergeFrom(acc, rest) == acc + rest
    decreases |rest|
  {
    if rest == [] {
      assert acc + rest == acc;
    } else {
      if acc != [] {
        assert (acc + rest)[|acc| - 1] == acc[|acc| - 1] && (acc + rest)[|acc|] == rest[0];
      }
      assert acc + [rest[0]] + rest[1..] == acc + rest;
      MergeKeepsApart(acc + [rest[0]], rest[1..]);
    }
  }

  // ---- The whole pipeline ----

  function Fuse(xs: seq<Span>): seq<Span> {
    Merge(Resolve(Sort(xs)))
  }

  method FuseSpans(spans: seq<Span>) returns (fused: seq<Span>)
    ensures fused == Fuse(spans)
  {
    if spans == [] {
      return [];
    }
    var resolved := ResolveOverlapping(Sort(spans));
    fused := MergeAdjacent(resolved);
  }

  lemma ResolvedShape(xs: seq<Span>)
    requires AllValid(xs)
    ensures AllValid(Resolve(Sort(xs))) && Disjoint(Resolve(Sort(xs)))
    ensures forall x :: x in Resolve(Sort(xs)) ==> x in xs
  {
    SortSorts(xs);
    Sorting.SameElements(xs, Sort(xs));
    ResolveDisjoint([], Sort(xs));
  }

  // The output is sorted, pairwise disjoint, valid, and has no mergeable neighbours.
  lemma FuseShape(xs: seq<Span>)
    requires AllValid(xs)
    ensures AllValid(Fuse(xs)) && Disjoint(Fuse(xs)) && Apart(Fuse(xs))
  {
    ResolvedShape(xs);
    MergeShape([], Resolve(Sort(xs)));
  }

  lemma DisjointSorted(xs: seq<Span>)
    requires AllValid(xs) && Disjoint(xs)
    ensures Sorted(xs)
  {
    forall i, j | 0 <= i < j < |xs| ensures KeyLeq(xs[i], xs[j]) {
      assert Valid(xs[i]);
    }
  }

  // Valid disjoint spans pass sorting and overlap resolution unchanged.
  lemma DisjointStays(xs: seq<Span>)
    requires AllValid(xs) && Disjoint(xs)
    ensures Resolve(Sort(xs)) == xs
  {
    DisjointSorted(xs);
    SortSorted(xs);
    assert [] + xs == xs;
    ResolveKeepsDisjoint([], xs);
  }

  // Fusing twice is fusing once.
  lemma FuseIdempotent(xs: seq<Span>)
    requires AllValid(xs)
    ensures Fuse(Fuse(xs)) == Fuse(xs)
  {
    var f := Fuse(xs);
    FuseShape(xs);
    DisjointStays(f);
    assert [] + f == f;
    MergeKeepsApart([], f);
  }

  // ---- Order independence ----

  predicate SameRange(a: Span, b: Span) {
    a.start == b.start && a.end == b.end
  }

  // No two detections agree on start, length and source.
  ghost predicate NoTies(xs: seq<Span>) {
    && (forall x :: x in xs ==> multiset(xs)[x] == 1)
    && (forall x, y :: x in xs && y in xs && SameRange(x, y) && x.source == y.source ==> x == y)
  }

  lemma Twice(xs: seq<Span>, i: nat, j: nat)
    requires i < j < |xs| && xs[i] == xs[j]
    ensures multiset(xs)[xs[i]] >= 2
  {
    assert xs == xs[..j] + [xs[j]] + xs[j + 1..];
    assert xs[i] in xs[..j];
  }

  // A regex and an slm detection of one range may come in either order.
  lemma AbsorbSwap(acc: seq<Span>, a: Span, b: Span)
    requires Valid(a) && Valid(b) && SameRange(a, b) && a.source != b.source
    ensures Absorb(Absorb(acc, a), b) == Absorb(Absorb(acc, b), a)
  {
  }

  lemma SortedHead(xs: seq<Span>, ys: seq<Span>)
    requires Sorted(xs) && Sorted(ys) && multiset(xs) == multiset(ys) && xs != []
    ensures ys != [] && SameRange(xs[0], ys[0])
  {
    Sorting.SameElements(xs, ys);
    assert xs[0] in ys && ys[0] in xs;
  }

  lemma DropHead(xs: seq<Span>)
    requires xs != []
    ensures multiset(xs[1..]) == multiset(xs) - multiset{xs[0]}
  {
    assert xs == [xs[0]] + xs[1..];
  }

  // If both lists start with the same range but different spans, the second
  // element of each is the first of the other.
  lemma SwappedPair(xs: seq<Span>, ys: seq<Span>)
    requires Sorted(xs) && Sorted(ys) && multiset(xs) == multiset(ys) && NoTies(xs) && NoTies(ys)
    requires xs != [] && ys != [] && xs[0] != ys[0]
    ensures |xs| >= 2 && xs[1] == ys[0] && SameRange(xs[0], xs[1]) && xs[0].source != xs[1].source
  {
    SortedHead(xs, ys);
    Sorting.SameElements(xs, ys);
    assert ys[0] in xs;
    var n: nat :| n < |xs| && xs[n] == ys[0];
    assert n > 0 && xs[0].source != xs[n].source;
    if n > 1 {
      assert KeyLeq(xs[0], xs[1]) && KeyLeq(xs[1], xs[n]);
      assert xs[1] in xs && xs[0] in xs && SameRange(xs[0], xs[1]) && SameRange(xs[1], xs[n]);
      if xs[1] == xs[0] { Twice(xs, 0, 1); } else { Twice(xs, 1, n); }
      assert false;
    }
  }

  lemma TailTies(xs: seq<Span>)
    requires NoTies(xs) && xs != []
    ensures NoTies(xs[1..])
  {
    DropHead(xs);
  }

  lemma DropTwo(acc: seq<Span>, xs: seq<Span>)
    requires |xs| >= 2 && NoTies(xs) && Sorted(xs) && AllValid(xs)
    ensures ResolveFrom(acc, xs) == ResolveFrom(Absorb(Absorb(acc, xs[0]), xs[1]), xs[2..])
    ensures multiset(xs[2..]) == multiset(xs) - multiset{xs[0]} - multiset{xs[1]}
    ensures NoTies(xs[2..]) && Sorted(xs[2..]) && AllValid(xs[2..])
  {
    assert xs[1..][1..] == xs[2..];
    DropHead(xs); TailTies(xs);
    DropHead(xs[1..]); TailTies(xs[1..]);
  }

  // Two sorted lists that differ in their first element start with a swapped pair.
  lemma SwapHeads(acc: seq<Span>, xs: seq<Span>, ys: seq<Span>)
    requires AllValid(xs) && AllValid(ys) && Sorted(xs) && Sorted(ys) && NoTies(xs) && NoTies(ys)
    requires multiset(xs) == multiset(ys) && xs != [] && ys != [] && xs[0] != ys[0]
    ensures |xs| >= 2 && |ys| >= 2
    ensures Absorb(Absorb(acc, xs[0]), xs[1]) == Absorb(Absorb(acc, ys[0]), ys[1])
    ensures ResolveFrom(acc, xs) == ResolveFrom(Absorb(Absorb(acc, xs[0]), xs[1]), xs[2..])
    ensures ResolveFrom(acc, ys) == ResolveFrom(Absorb(Absorb(acc, ys[0]), ys[1]), ys[2..])
    ensures xs[0] == ys[1] && xs[1] == ys[0]
    ensures NoTies(xs[2..]) && Sorted(xs[2..]) && AllValid(xs[2..]) && NoTies(ys[2..]) && Sorted(ys[2..])
  {
    SwappedPair(xs, ys);
    SwappedPair(ys, xs);
    assert Valid(xs[0]) && Valid(xs[1]);
    hide Absorb, AllValid, Sorted, NoTies, Valid, ResolveFrom;
    DropTwo(acc, xs);
    DropTwo(acc, ys);
    AbsorbSwap(acc, xs[0], xs[1]);
  }

  lemma SameRest(xs: seq<Span>, ys: seq<Span>)
    requires |xs| >= 2 && |ys| >= 2 && xs[0] == ys[1] && xs[1] == ys[0] && multiset(xs) == multiset(ys)
    ensures multiset(xs[2..]) == multiset(ys[2..])
  {
    DropHead(xs); DropHead(xs[1..]);
    DropHead(ys); DropHead(ys[1..]);
    assert xs[1..][1..] == xs[2..] && ys[1..][1..] == ys[2..];
    MinusTwo(multiset(xs), xs[0], xs[1]);
  }

  lemma MinusTwo<T>(m: multiset<T>, a: T, b: T)
    ensures m - multiset{a} - multiset{b} == m - multiset{b} - multiset{a}
  {
  }

  lemma {:induction false} ResolveSameBag(acc: seq<Span>, xs: seq<Span>, ys: seq<Span>)
    requires AllValid(xs) && Sorted(xs) && Sorted(ys) && NoTies(xs) && NoTies(ys) && multiset(xs) == multiset(ys)
    ensures ResolveFrom(acc, xs) == ResolveFrom(acc, ys)
    decreases |xs|
  {
    Sorting.SameElements(xs, ys);
    assert AllValid(ys);
    hide AllValid, Sorted, NoTies;
    if xs != [] {
      hide Absorb;
      if xs[0] == ys[0] {
        DropHead(xs); TailTies(xs);
        DropHead(ys); TailTies(ys);
        ResolveSameBag(Absorb(acc, xs[0]), xs[1..], ys[1..]);
      } else {
        SwapHeads(acc, xs, ys);
        SameRest(xs, ys);
        ResolveSameBag(Absorb(Absorb(acc, xs[0]), xs[1]), xs[2..], ys[2..]);
      }
    }
  }

  // The result does not depend on the order in which detectors report.
  lemma FuseOrderIndependent(xs: seq<Span>, ys: seq<Span>)
    requires AllValid(xs) && NoTies(xs) && multiset(xs) == multiset(ys)
    ensures Fuse(xs) == Fuse(ys)
  {
    SortSorts(xs);
    SortSorts(ys);
    Sorting.SameElements(xs, Sort(xs));
    Sorting.SameElements(xs, Sort(ys));
    ResolveSameBag([], Sort(xs), Sort(ys));
  }

  // ---- What merging does to characters and texts ----

  predicate Has(x: Span, p: int) {
    x.start <= p < x.end
  }

  ghost predicate Covered(xs: seq<Span>, p: int) {
    exists x :: x in xs && Has(x, p)
  }

  // A one-character gap between same-type neighbours.
  predicate Bridge(a: Span, b: Span) {
    a.piiType == b.piiType && b.start - a.end == 1
  }

  predicate BridgedAt(xs: seq<Span>, p: int) {
    |xs| >= 2 && ((Bridge(xs[0], xs[1]) && p == xs[0].end) || BridgedAt(xs[1..], p))
  }

  function Line(acc: seq<Span>, rest: seq<Span>): seq<Span> {
    if acc == [] then rest else [acc[|acc| - 1]] + rest
  }

  lemma CoverExtend(acc: seq<Span>, cur: Span, p: int)
    requires AllValid(acc) && Valid(cur)
    ensures Covered(Extend(acc, cur), p) <==>
              Covered(acc, p) || Has(cur, p) || (acc != [] && Bridge(acc[|acc| - 1], cur) && p == acc[|acc| - 1].end)
  {
    var acc' := Extend(acc, cur);
    var n := |acc| - 1;
    if acc != [] && Joinable(acc[n], cur) {
      var f := Fused(acc[n], cur);
      assert Valid(acc[n]);
      assert acc'[n] == f && acc == acc[..n] + [acc[n]];
      assert forall x :: x in acc' <==> x in acc[..n] || x == f;
      assert forall x :: x in acc <==> x in acc[..n] || x == acc[n];
      assert Has(f, p) <==> Has(acc[n], p) || Has(cur, p) || (cur.start - acc[n].end == 1 && p == acc[n].end);
    } else {
      assert forall x :: x in acc' <==> x in acc || x == cur;
    }
  }

  lemma {:induction false} MergeCovers(acc: seq<Span>, rest: seq<Span>, p: int)
    requires Mergeable(acc, rest)
    ensures Covered(MergeFrom(acc, rest), p) <==>
              Covered(acc, p) || Covered(rest, p) || BridgedAt(Line(acc, rest), p)
    decreases |rest|
  {
    if rest != [] {
      var acc', tail := Extend(acc, rest[0]), rest[1..];
      assert rest[0] in rest && rest == [rest[0]] + tail;
      ExtendShape(acc, rest);
      CoverExtend(acc, rest[0], p);
      MergeCovers(acc', tail, p);
      assert Covered(rest, p) <==> Has(rest[0], p) || Covered(tail, p);
      assert Line(acc', tail)[1..] == tail && (acc != [] ==> Line(acc, rest)[1..] == rest);
    }
  }

  // Merging never loses a character and adds only the bridged gaps.
  lemma MergeCoverage(xs: seq<Span>, p: int)
    requires AllValid(xs)
    ensures var resolved := Resolve(Sort(xs));
            Covered(Fuse(xs), p) <==> Covered(resolved, p) || BridgedAt(resolved, p)
  {
    ResolvedShape(xs);
    MergeCovers([], Resolve(Sort(xs)), p);
  }

  predicate IsSlice(text: string, s: Span) {
    0 <= s.start <= s.end <= |text| && s.text == text[s.start..s.end]
  }

  predicate AllSlices(text: string, xs: seq<Span>) {
    forall x :: x in xs ==> IsSlice(text, x)
  }

  predicate AllSized(text: string, xs: seq<Span>) {
    forall x :: x in xs ==> 0 <= x.start <= x.end <= |text| && |x.text| == Length(x)
  }

  // Every bridged gap holds a space in the text.
  predicate SpacesBridged(text: string, xs: seq<Span>) {
    |xs| < 2 ||
    (&& (Bridge(xs[0], xs[1]) ==> 0 <= xs[0].end < |text| && text[xs[0].end] == ' ')
     && SpacesBridged(text, xs[1..]))
  }

  lemma SliceFused(text: string, last: Span, cur: Span)
    requires Valid(last) && Valid(cur) && Joinable(last, cur) && IsSlice(text, cur)
    requires last.end <= |text| && |last.text| == Length(last)
    ensures |Fused(last, cur).text| == Length(Fused(last, cur))
    ensures IsSlice(text, Fused(last, cur)) <==>
              IsSlice(text, last) && (Bridge(last, cur) ==> text[last.end] == ' ')
  {
    var f := Fused(last, cur);
    var gap := if cur.start - last.end == 1 then " " else "";
    var whole := text[f.start..f.end];
    assert whole == text[last.start..last.end] + text[last.end..cur.start] + text[cur.start..cur.end];
    if IsSlice(text, f) {
      assert f.text[..Length(last)] == last.text && whole[..Length(last)] == text[last.start..last.end];
      if gap != "" {
        assert f.text[Length(last)] == ' ' && whole[Length(last)] == text[last.end];
      }
    }
    if IsSlice(text, last) && (Bridge(last, cur) ==> text[last.end] == ' ') {
      assert text[last.end..cur.start] == gap;
    }
  }

  lemma SliceExtend(text: string, acc: seq<Span>, cur: Span)
    requires AllValid(acc) && Valid(cur) && AllSized(text, acc) && IsSlice(text, cur)
    ensures AllSized(text, Extend(acc, cur))
    ensures AllSlices(text, Extend(acc, cur)) <==>
              AllSlices(text, acc) && (acc != [] && Bridge(acc[|acc| - 1], cur) ==> text[acc[|acc| - 1].end] == ' ')
  {
    var n := |acc| - 1;
    if acc != [] && Joinable(acc[n], cur) {
      var f := Fused(acc[n], cur);
      assert acc[n] in acc && acc == acc[..n] + [acc[n]];
      assert forall x :: x in acc <==> x in acc[..n] || x == acc[n];
      assert forall x :: x in Extend(acc, cur) <==> x in acc[..n] || x == f;
      SliceFused(text, acc[n], cur);
    } else {
      assert forall x :: x in Extend(acc, cur) <==> x in acc || x == cur;
    }
  }

  // The last merged span ends where the last input ended, with its type, so the
  // next bridge test does not see whether a merge happened.
  lemma BridgesUnchanged(text: string, acc: seq<Span>, rest: seq<Span>)
    requires rest != []
    ensures SpacesBridged(text, Line(Extend(acc, rest[0]), rest[1..])) == SpacesBridged(text, rest)
    ensures acc != [] ==>
              SpacesBridged(text, Line(acc, rest)) ==
                (&& SpacesBridged(text, rest)
                 && (Bridge(acc[|acc| - 1], rest[0]) ==>
                       0 <= acc[|acc| - 1].end < |text| && text[acc[|acc| - 1].end] == ' '))
  {
    var acc', tail := Extend(acc, rest[0]), rest[1..];
    assert acc' != [] && acc'[|acc'| - 1].end == rest[0].end && acc'[|acc'| - 1].piiType == rest[0].piiType;
    assert Line(acc', tail)[1..] == tail;
    assert acc != [] ==> Line(acc, rest)[1..] == rest;
  }

  lemma {:induction false} MergeSlices(text: string, acc: seq<Span>, rest: seq<Span>)
    requires Mergeable(acc, rest)
    requires AllSized(text, acc) && AllSlices(text, rest)
    ensures AllSized(text, MergeFrom(acc, rest))
    ensures AllSlices(text, MergeFrom(acc, rest)) <==> AllSlices(text, acc) && SpacesBridged(text, Line(acc, rest))
    decreases |rest|
  {
    if rest != [] {
      ExtendShape(acc, rest);
      SliceExtend(text, acc, rest[0]);
      BridgesUnchanged(text, acc, rest);
      assert IsSlice(text, rest[0]) && Valid(rest[0]);
      assert acc != [] ==> Valid(acc[|acc| - 1]);
      hide Extend, SpacesBridged, Line, Disjoint, Joinable;
      MergeSlices(text, Extend(acc, rest[0]), rest[1..]);
    }
  }

  // If every detection carries its own slice of the text, every fused span has
  // the right length, and carries its slice if and only if each gap that the
  // merge step bridges is a space.
  lemma FusedSlices(text: string, xs: seq<Span>)
    requires AllValid(xs) && AllSlices(text, xs)
    ensures AllSized(text, Fuse(xs))
    ensures AllSlices(text, Fuse(xs)) <==> SpacesBridged(text, Resolve(Sort(xs)))
  {
    ResolvedShape(xs);
    MergeSlices(text, [], Resolve(Sort(xs)));
  }

  // ---- What a merged span is made of ----

  // The spans of xs that lie within m, in order.
  function Parts(xs: seq<Span>, m: Span): seq<Span> {
    if xs == [] then []
    else
      var x := xs[|xs| - 1];
      Parts(xs[..|xs| - 1], m) + if m.start <= x.start && x.end <= m.end then [x] else []
  }

  // Each confidence averaged with the mean of those before it.
  function RunningMean(parts: seq<Span>): real
    requires parts != []
  {
    var n := |parts| - 1;
    if n == 0 then parts[0].confidence else (RunningMean(parts[..n]) + parts[n].confidence) / 2.0
  }

  // From the start of the first part to the end of the last, of their type, regex
  // if any part is, with their confidences averaged one after the other.
  ghost predicate MadeOf(m: Span, parts: seq<Span>) {
    && parts != [] && m.start == parts[0].start && m.end == parts[|parts| - 1].end
    && (forall p :: p in parts ==> p.piiType == m.piiType)
    && (m.source == Regex <==> exists p :: p in parts && p.source == Regex)
    && m.confidence == RunningMean(parts)
  }

  lemma PartsMore(xs: seq<Span>, x: Span, m: Span)
    ensures Parts(xs + [x], m) == Parts(xs, m) + if m.start <= x.start && x.end <= m.end then [x] else []
  {
    assert (xs + [x])[..|xs|] == xs;
  }

  lemma {:induction false} PartsSame(xs: seq<Span>, m: Span, m': Span)
    requires m.start == m'.start && forall i :: 0 <= i < |xs| ==> xs[i].end <= m.end && xs[i].end <= m'.end
    ensures Parts(xs, m) == Parts(xs, m')
    decreases |xs|
  {
    if xs != [] {
      PartsSame(xs[..|xs| - 1], m, m');
    }
  }

  lemma {:induction false} NoParts(xs: seq<Span>, m: Span)
    requires forall i :: 0 <= i < |xs| ==> xs[i].start < m.start
    ensures Parts(xs, m) == []
    decreases |xs|
  {
    if xs != [] {
      NoParts(xs[..|xs| - 1], m);
    }
  }

  lemma {:induction false} MergeMore(acc: seq<Span>, rest: seq<Span>, x: Span)
    ensures MergeFrom(acc, rest + [x]) == Extend(MergeFrom(acc, rest), x)
    decreases |rest|
  {
    hide Extend;
    if rest == [] {
      assert rest + [x] == [x] && [x][1..] == [];
    } else {
      assert (rest + [x])[0] == rest[0] && (rest + [x])[1..] == rest[1..] + [x];
      MergeMore(Extend(acc, rest[0]), rest[1..], x);
    }
  }

  lemma MadeOfMore(m: Span, parts: seq<Span>, x: Span)
    requires MadeOf(m, parts) && Joinable(m, x)
    ensures MadeOf(Fused(m, x), parts + [x])
  {
    var all := parts + [x];
    assert all[..|parts|] == parts && all[|parts|] == x;
    assert forall p :: p in all <==> p in parts || p == x;
  }

  lemma MadeOfOne(x: Span)
    ensures MadeOf(x, [x])
  {
  }

  // The merged spans, each made of the spans within it, the last one ending with
  // the last of these.
  ghost predicate Made(xs: seq<Span>, r: seq<Span>) {
    && (xs == [] <==> r == [])
    && (r != [] ==>
          var last, x := r[|r| - 1], xs[|xs| - 1];
          last.end == x.end && last.piiType == x.piiType && last.start <= x.start)
    && (forall m :: m in r ==> m.end <= xs[|xs| - 1].end && MadeOf(m, Parts(xs, m)))
  }

  // x comes after all of xs.
  ghost predicate After(xs: seq<Span>, x: Span) {
    x.start < x.end && forall i :: 0 <= i < |xs| ==> xs[i].start < xs[i].end <= x.start
  }

  lemma ExtendIs(r: seq<Span>, x: Span, m: Span)
    ensures r == [] || !Joinable(r[|r| - 1], x) ==> (m in Extend(r, x) <==> m in r || m == x)
    ensures r != [] && Joinable(r[|r| - 1], x) ==>
              && (m in Extend(r, x) <==> m in r[..|r| - 1] || m == Fused(r[|r| - 1], x))
              && (m in r <==> m in r[..|r| - 1] || m == r[|r| - 1])
  {
    hide Fused;
    if r != [] {
      assert r == r[..|r| - 1] + [r[|r| - 1]];
    }
  }

  // An earlier merged span has the same parts as before.
  lemma OldMade(xs: seq<Span>, r: seq<Span>, x: Span, m: Span)
    requires Made(xs, r) && After(xs, x) && m in r
    ensures m.end <= x.end && MadeOf(m, Parts(xs + [x], m))
  {
    hide MadeOf, Parts;
    PartsMore(xs, x, m);
    var last := xs[|xs| - 1];
    assert m.end <= last.end <= x.start < x.end;
    assert Parts(xs, m) + [] == Parts(xs, m);
  }

  lemma JoinMade(xs: seq<Span>, r: seq<Span>, x: Span)
    requires Made(xs, r) && After(xs, x) && r != [] && Joinable(r[|r| - 1], x)
    requires After(xs[..|xs| - 1], xs[|xs| - 1])
    ensures var f := Fused(r[|r| - 1], x); MadeOf(f, Parts(xs + [x], f))
  {
    var last := r[|r| - 1];
    var f := Fused(last, x);
    EndsBefore(xs, r);
    PartsSame(xs, last, f);
    PartsMore(xs, x, f);
    assert last in r;
    hide MadeOf;
    MadeOfMore(last, Parts(xs, last), x);
  }

  lemma EndsBefore(xs: seq<Span>, r: seq<Span>)
    requires Made(xs, r) && r != [] && After(xs[..|xs| - 1], xs[|xs| - 1])
    ensures forall i :: 0 <= i < |xs| ==> xs[i].end <= r[|r| - 1].end
  {
    hide MadeOf, Parts;
    var n := |xs| - 1;
    forall i | 0 <= i < |xs| ensures xs[i].end <= xs[n].end {
      if i < n { assert xs[..n][i] == xs[i]; }
    }
  }

  lemma NewMade(xs: seq<Span>, x: Span)
    requires After(xs, x)
    ensures MadeOf(x, Parts(xs + [x], x))
  {
    NoParts(xs, x);
    PartsMore(xs, x, x);
    MadeOfOne(x);
    assert [] + [x] == [x];
  }

  lemma MadeExtend(xs: seq<Span>, r: seq<Span>, x: Span)
    requires Made(xs, r) && After(xs, x) && (xs != [] ==> After(xs[..|xs| - 1], xs[|xs| - 1]))
    ensures Made(xs + [x], Extend(r, x))
  {
    var r' := Extend(r, x);
    var joined := r != [] && Joinable(r[|r| - 1], x);
    if joined {
      JoinMade(xs, r, x);
    } else {
      NewMade(xs, x);
    }
    forall m | m in r' ensures m.end <= x.end && MadeOf(m, Parts(xs + [x], m)) {
      ExtendIs(r, x, m);
      if m in r {
        OldMade(xs, r, x, m);
      }
    }
    hide MadeOf, Parts;
  }

  lemma AfterAll(xs: seq<Span>)
    requires AllValid(xs) && Disjoint(xs) && xs != []
    ensures After(xs[..|xs| - 1], xs[|xs| - 1])
  {
    forall i | 0 <= i < |xs| ensures Valid(xs[i]) {
      assert xs[i] in xs;
    }
  }

  lemma {:induction false} MergeMakes(xs: seq<Span>)
    requires AllValid(xs) && Disjoint(xs)
    ensures Made(xs, Merge(xs))
    decreases |xs|
  {
    hide Made, Extend, After;
    if xs == [] {
      NothingMade();
    } else {
      var n := |xs| - 1;
      assert xs == xs[..n] + [xs[n]];
      MergeMakes(xs[..n]);
      MergeMore([], xs[..n], xs[n]);
      AfterAll(xs);
      if n > 0 { AfterAll(xs[..n]); }
      MadeExtend(xs[..n], Merge(xs[..n]), xs[n]);
    }
  }

  lemma NothingMade()
    ensures Made([], Merge([]))
  {
  }

  // Every fused span is made of the resolved detections within it.
  lemma FusedParts(xs: seq<Span>, m: Span)
    requires AllValid(xs) && m in Fuse(xs)
    ensures MadeOf(m, Parts(Resolve(Sort(xs)), m))
  {
    ResolvedShape(xs);
    MergeMakes(Resolve(Sort(xs)));
  }

  ghost predicate Together(r: seq<Span>, a: Span, b: Span) {
    exists m :: m in r && m.start <= a.start && b.end <= m.end
  }

  // One type, and at most one character between them.
  predicate Near(a: Span, b: Span) {
    a.piiType == b.piiType && (b.start == a.end || b.start == a.end + 1)
  }

  // Whether two earlier neighbours are together does not change.
  lemma TogetherExtend(xs: seq<Span>, r: seq<Span>, x: Span, a: Span, b: Span)
    requires Made(xs, r) && After(xs, x) && r != [] && a.start < x.start && b.end <= xs[|xs| - 1].end
    ensures Together(Extend(r, x), a, b) <==> Together(r, a, b)
  {
    var n := |r| - 1;
    assert r[n] in r;
    forall m
      ensures m in Extend(r, x) <==> if Joinable(r[n], x) then m in r[..n] || m == Fused(r[n], x) else m in r || m == x
    {
      ExtendIs(r, x, m);
    }
    forall m ensures m in r <==> m in r[..n] || m == r[n] {
      assert r == r[..n] + [r[n]];
    }
    hide MadeOf, Parts, Extend;
    if Joinable(r[n], x) && Together(r, a, b) {
      var m :| m in r && m.start <= a.start && b.end <= m.end;
      assert m == r[n] ==> Fused(r[n], x) in Extend(r, x);
    }
  }

  // Two neighbours end up in one span if and only if they have one type and at
  // most one character between them.
  lemma {:induction false} MergedTogether(xs: seq<Span>, i: nat)
    requires AllValid(xs) && Disjoint(xs) && 0 < i < |xs|
    ensures Together(Merge(xs), xs[i - 1], xs[i]) <==> Near(xs[i - 1], xs[i])
    decreases |xs|
  {
    hide Made, Extend, Together, Near, Merge;
    var n := |xs| - 1;
    var before, x := xs[..n], xs[n];
    assert xs == before + [x];
    MergeMakes(before);
    AfterAll(xs);
    MergeIs(before, x);
    if i < n {
      MergedTogether(before, i);
      Earlier(xs, i);
      MadeSome(before, Merge(before));
      TogetherExtend(before, Merge(before), x, xs[i - 1], xs[i]);
    } else {
      LastTogether(before, Merge(before), x);
    }
  }

  lemma MergeIs(xs: seq<Span>, x: Span)
    ensures Merge(xs + [x]) == Extend(Merge(xs), x)
  {
    MergeMore([], xs, x);
  }

  lemma MadeSome(xs: seq<Span>, r: seq<Span>)
    requires Made(xs, r) && xs != []
    ensures r != []
  {
  }

  lemma Earlier(xs: seq<Span>, i: nat)
    requires AllValid(xs) && Disjoint(xs) && 0 < i < |xs| - 1
    ensures xs[i - 1].start < xs[|xs| - 1].start && xs[i].end <= xs[|xs| - 2].end
  {
    assert xs[i - 1] in xs && xs[|xs| - 1] in xs && xs[|xs| - 2] in xs;
    assert Valid(xs[i - 1]) && Valid(xs[|xs| - 2]);
  }

  lemma LastTogether(xs: seq<Span>, r: seq<Span>, x: Span)
    requires Made(xs, r) && After(xs, x) && xs != []
    ensures Together(Extend(r, x), xs[|xs| - 1], x) <==> Near(xs[|xs| - 1], x)
  {
    var a, n := xs[|xs| - 1], |r| - 1;
    var r' := Extend(r, x);
    assert r[n] in r;
    forall m
      ensures m in r' <==> if Joinable(r[n], x) then m in r[..n] || m == Fused(r[n], x) else m in r || m == x
    {
      ExtendIs(r, x, m);
    }
    if Joinable(r[n], x) {
      assert Fused(r[n], x) in r';
    }
    hide MadeOf, Parts, Extend;
  }

  // For the detections that overlap resolution leaves.
  lemma FusedTogether(xs: seq<Span>, i: nat)
    requires AllValid(xs) && 0 < i < |Resolve(Sort(xs))|
    ensures var resolved := Resolve(Sort(xs));
            Together(Fuse(xs), resolved[i - 1], resolved[i]) <==> Near(resolved[i - 1], resolved[i])
  {
    ResolvedShape(xs);
    MergedTogether(Resolve(Sort(xs)), i);
  }
}
