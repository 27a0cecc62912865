// Greedy partial matching of predicted against gold spans, and how far it can be
// from the best possible matching. Exact arithmetic stands in for floats.
module Matching {
  import opened Wrappers
  import Sorting

  datatype EntitySpan = EntitySpan(text: string, piiType: string, start: int, end: int)

  function Min(a: int, b: int): int { if a < b then a else b }
  function Max(a: int, b: int): int { if a < b then b else a }

  function Intersection(a: EntitySpan, b: EntitySpan): int {
    Max(0, Min(a.end, b.end) - Max(a.start, b.start))
  }

  function Union(a: EntitySpan, b: EntitySpan): int {
    (a.end - a.start) + (b.end - b.start) - Intersection(a, b)
  }

  function Iou(a: EntitySpan, b: EntitySpan): real {
    if Union(a, b) <= 0 then 0.0 else Intersection(a, b) as real / Union(a, b) as real
  }

  function Interval(lo: int, hi: int): (ps: set<int>)
    ensures forall p :: p in ps <==> lo <= p < hi
    ensures |ps| == if lo < hi then hi - lo else 0
    decreases hi - lo
  {
    if lo < hi then Interval(lo, hi - 1) + {hi - 1} else {}
  }

  // The positions a span covers.
  function Chars(s: EntitySpan): set<int> { Interval(s.start, s.end) }

  lemma Shared(a: EntitySpan, b: EntitySpan)
    requires a.start <= a.end && b.start <= b.end
    ensures Intersection(a, b) == |Chars(a) * Chars(b)|
  {
    var lo, hi := Max(a.start, b.start), Min(a.end, b.end);
    assert Chars(a) * Chars(b) == Interval(lo, hi);
  }

  lemma Covered(a: EntitySpan, b: EntitySpan)
    requires a.start <= a.end && b.start <= b.end
    ensures Union(a, b) == |Chars(a) + Chars(b)|
  {
    Shared(a, b);
    hide Intersection;
    assert |Chars(a) + Chars(b)| + |Chars(a) * Chars(b)| == |Chars(a)| + |Chars(b)|;
  }

  // Shared characters over covered characters, and zero if nothing is covered.
  lemma IouExact(a: EntitySpan, b: EntitySpan)
    requires a.start <= a.end && b.start <= b.end
    ensures Iou(a, b) * |Chars(a) + Chars(b)| as real == |Chars(a) * Chars(b)| as real
    ensures Chars(a) + Chars(b) == {} ==> Iou(a, b) == 0.0
  {
    hide Iou, Union, Intersection, Chars, Interval;
    Shared(a, b);
    Covered(a, b);
    NoneShared(Chars(a), Chars(b));
    IouIs(a, b, |Chars(a) * Chars(b)|, |Chars(a) + Chars(b)|);
  }

  lemma NoneShared(s: set<int>, t: set<int>)
    ensures |s + t| == 0 ==> |s * t| == 0
  {
    if s + t == {} {
      assert s * t <= s + t;
    }
  }

  lemma IouIs(a: EntitySpan, b: EntitySpan, x: int, y: int)
    requires Intersection(a, b) == x && Union(a, b) == y && y >= 0 && (y == 0 ==> x == 0)
    ensures Iou(a, b) * y as real == x as real
    ensures y == 0 ==> Iou(a, b) == 0.0
  {
    hide Intersection, Union;
    if y > 0 {
      assert (x as real / y as real) * y as real == x as real;
    }
  }

  lemma Ratio(x: int, y: int, t: real)
    requires y > 0
    ensures x as real / y as real > t <==> x as real > t * y as real
    ensures x as real / y as real >= t <==> x as real >= t * y as real
  {
    var q := x as real / y as real;
    assert q * y as real == x as real;
    if q > t { Times(t, q, y as real); }
    if q < t { Times(q, t, y as real); }
  }

  lemma Times(a: real, b: real, y: real)
    requires a < b && y > 0.0
    ensures a * y < b * y
  {
  }

  // A prediction index and a gold index.
  datatype Pair = Pair(p: nat, g: nat)

  predicate Candidate(pred: seq<EntitySpan>, gold: seq<EntitySpan>, t: real, m: Pair) {
    m.p < |pred| && m.g < |gold| && pred[m.p].piiType == gold[m.g].piiType && Iou(pred[m.p], gold[m.g]) > t
  }

  // Any set of pairs that uses each prediction and each gold span at most once.
  ghost predicate IsMatching(ms: set<Pair>) {
    forall m, n :: m in ms && n in ms && (m.p == n.p || m.g == n.g) ==> m == n
  }

  // ---- The algorithm ----

  datatype Cand = Cand(iou: real, pair: Pair)

  function Row(pred: seq<EntitySpan>, gold: seq<EntitySpan>, t: real, p: nat, g: nat): seq<Cand>
    requires p < |pred| && g <= |gold|
  {
    if g == 0 then []
    else Row(pred, gold, t, p, g - 1)
         + if Candidate(pred, gold, t, Pair(p, g - 1)) then [Cand(Iou(pred[p], gold[g - 1]), Pair(p, g - 1))] else []
  }

  function Rows(pred: seq<EntitySpan>, gold: seq<EntitySpan>, t: real, p: nat): seq<Cand>
    requires p <= |pred|
  {
    if p == 0 then [] else Rows(pred, gold, t, p - 1) + Row(pred, gold, t, p - 1, |gold|)
  }

  predicate AtLeast(a: Cand, b: Cand) { a.iou >= b.iou }

  function SortDesc(cs: seq<Cand>): seq<Cand> { Sorting.Sort(AtLeast, cs) }

  predicate Free(chosen: set<Pair>, m: Pair) {
    forall q :: q in chosen ==> q.p != m.p && q.g != m.g
  }

  function Greedy(cs: seq<Cand>, chosen: set<Pair>): set<Pair>
    decreases |cs|
  {
    if cs == [] then chosen
    else Greedy(cs[1..], if Free(chosen, cs[0].pair) then chosen + {cs[0].pair} else chosen)
  }

  function Chosen(pred: seq<EntitySpan>, gold: seq<EntitySpan>, t: real): set<Pair> {
    Greedy(SortDesc(Rows(pred, gold, t, |pred|)), {})
  }

  // The nested loops that build the candidate list.
  method Candidates(pred: seq<EntitySpan>, gold: seq<EntitySpan>, t: real) returns (candidates: seq<Cand>)
    ensures candidates == Rows(pred, gold, t, |pred|)
  {
    candidates := [];
    for p := 0 to |pred|
      invariant candidates == Rows(pred, gold, t, p)
    {
      for g := 0 to |gold|
        invariant candidates == Rows(pred, gold, t, p) + Row(pred, gold, t, p, g)
      {
        if pred[p].piiType == gold[g].piiType {
          var iou := Iou(pred[p], gold[g]);
          if iou > t {
            candidates := candidates + [Cand(iou, Pair(p, g))];
          }
        }
      }
    }
  }

  method MatchPartial(pred: seq<EntitySpan>, gold: seq<EntitySpan>, t: real) returns (tp: nat, fp: int, fn: int)
    ensures tp == |Chosen(pred, gold, t)| && fp == |pred| - tp && fn == |gold| - tp
  {
    if |gold| == 0 || |pred| == 0 {
      NoRows(pred, gold, t, |pred|);
      return 0, |pred|, |gold|;
    }
    var candidates := Candidates(pred, gold, t);
    candidates := SortDesc(candidates);
    var preds, golds: set<nat> := {}, {};
    ghost var chosen: set<Pair> := {};
    for n := 0 to |candidates|
      invariant Greedy(candidates[n..], chosen) == Chosen(pred, gold, t)
      invariant preds == Firsts(chosen) && golds == Seconds(chosen) && IsMatching(chosen)
    {
      var m := candidates[n].pair;
      assert candidates[n..][1..] == candidates[n + 1..];
      FreeExact(chosen, m);
      if m.p !in preds && m.g !in golds {
        preds, golds := preds + {m.p}, golds + {m.g};
        assert Firsts(chosen + {m}) == preds && Seconds(chosen + {m}) == golds;
        chosen := chosen + {m};
      }
    }
    Sizes(chosen);
    return |golds|, |pred| - |preds|, |gold| - |golds|;
  }

  lemma FreeExact(chosen: set<Pair>, m: Pair)
    ensures Free(chosen, m) <==> m.p !in Firsts(chosen) && m.g !in Seconds(chosen)
  {
    if m.p in Firsts(chosen) {
      var q :| q in chosen && q.p == m.p;
      assert !Free(chosen, m);
    }
  }

  lemma {:induction false} NoRows(pred: seq<EntitySpan>, gold: seq<EntitySpan>, t: real, p: nat)
    requires p <= |pred| && (|gold| == 0 || |pred| == 0)
    ensures Rows(pred, gold, t, p) == []
  {
    if p > 0 {
      NoRows(pred, gold, t, p - 1);
    }
  }

  // ---- What the candidate list holds ----

  ghost predicate Descending(cs: seq<Cand>) {
    forall i, j :: 0 <= i < j < |cs| ==> cs[i].iou >= cs[j].iou
  }

  lemma SortKeeps(cs: seq<Cand>)
    ensures Descending(SortDesc(cs))
    ensures forall x :: x in SortDesc(cs) <==> x in cs
  {
    assert Sorting.Order(AtLeast);
    Sorting.SortSorts(AtLeast, cs);
    Sorting.SameElements(SortDesc(cs), cs);
    forall i, j | 0 <= i < j < |cs| ensures SortDesc(cs)[i].iou >= SortDesc(cs)[j].iou {
      assert AtLeast(SortDesc(cs)[i], SortDesc(cs)[j]);
    }
  }

  // A candidate pair with its IoU.
  predicate Scored(pred: seq<EntitySpan>, gold: seq<EntitySpan>, t: real, c: Cand) {
    Candidate(pred, gold, t, c.pair) && c.iou == Iou(pred[c.pair.p], gold[c.pair.g])
  }

  lemma {:induction false} RowHolds(pred: seq<EntitySpan>, gold: seq<EntitySpan>, t: real, p: nat, g: nat, c: Cand)
    requires p < |pred| && g <= |gold|
    ensures c in Row(pred, gold, t, p, g) <==>
              c.pair.p == p && c.pair.g < g && Scored(pred, gold, t, c)
    decreases g
  {
    if g > 0 {
      RowHolds(pred, gold, t, p, g - 1, c);
    }
  }

  lemma {:induction false} RowsHold(pred: seq<EntitySpan>, gold: seq<EntitySpan>, t: real, p: nat, c: Cand)
    requires p <= |pred|
    ensures c in Rows(pred, gold, t, p) <==>
              c.pair.p < p && Scored(pred, gold, t, c)
    decreases p
  {
    hide Iou, Row;
    if p > 0 {
      RowsHold(pred, gold, t, p - 1, c);
      RowHolds(pred, gold, t, p - 1, |gold|, c);
    }
  }

  // The sorted list: exactly the candidates, with their IoU, best first.
  lemma Sorted(pred: seq<EntitySpan>, gold: seq<EntitySpan>, t: real)
    ensures var cs := SortDesc(Rows(pred, gold, t, |pred|));
            && Descending(cs)
            && forall c :: c in cs <==> Scored(pred, gold, t, c)
  {
    var rows := Rows(pred, gold, t, |pred|);
    SortKeeps(rows);
    forall c ensures c in SortDesc(rows) <==> Scored(pred, gold, t, c) {
      RowsHold(pred, gold, t, |pred|, c);
    }
  }

  // By prediction, then by gold span.
  predicate PairBefore(m: Pair, n: Pair) {
    m.p < n.p || (m.p == n.p && m.g < n.g)
  }

  predicate CandBefore(a: Cand, b: Cand) { PairBefore(a.pair, b.pair) }

  ghost predicate ListedInOrder(cs: seq<Cand>) {
    forall i, j :: 0 <= i < j < |cs| ==> CandBefore(cs[i], cs[j])
  }

  lemma InOrderMore(cs: seq<Cand>, more: seq<Cand>)
    requires ListedInOrder(cs) && ListedInOrder(more)
    requires forall c, d :: c in cs && d in more ==> CandBefore(c, d)
    ensures ListedInOrder(cs + more)
  {
    var all := cs + more;
    forall i, j | 0 <= i < j < |all| ensures CandBefore(all[i], all[j]) {
      if i < |cs| <= j {
        assert all[i] in cs && all[j] in more;
      }
    }
  }

  lemma {:induction false} RowInOrder(pred: seq<EntitySpan>, gold: seq<EntitySpan>, t: real, p: nat, g: nat)
    requires p < |pred| && g <= |gold|
    ensures ListedInOrder(Row(pred, gold, t, p, g))
    ensures forall c :: c in Row(pred, gold, t, p, g) ==> c.pair.p == p && c.pair.g < g
    decreases g
  {
    hide Iou;
    if g > 0 {
      RowInOrder(pred, gold, t, p, g - 1);
    }
  }

  lemma {:induction false} RowsInOrder(pred: seq<EntitySpan>, gold: seq<EntitySpan>, t: real, p: nat)
    requires p <= |pred|
    ensures ListedInOrder(Rows(pred, gold, t, p))
    ensures forall c :: c in Rows(pred, gold, t, p) ==> c.pair.p < p
    decreases p
  {
    hide Row;
    if p > 0 {
      RowsInOrder(pred, gold, t, p - 1);
      RowInOrder(pred, gold, t, p - 1, |gold|);
      InOrderMore(Rows(pred, gold, t, p - 1), Row(pred, gold, t, p - 1, |gold|));
    }
  }

  // Higher IoU first, then by prediction, then by gold span.
  predicate Precedes(pred: seq<EntitySpan>, gold: seq<EntitySpan>, m: Pair, n: Pair)
    requires m.p < |pred| && m.g < |gold| && n.p < |pred| && n.g < |gold|
  {
    var x, y := Iou(pred[m.p], gold[m.g]), Iou(pred[n.p], gold[n.g]);
    x > y || (x == y && (m.p < n.p || (m.p == n.p && m.g < n.g)))
  }

  predicate CandPrecedes(a: Cand, b: Cand) {
    a.iou > b.iou || (a.iou == b.iou && PairBefore(a.pair, b.pair))
  }

  // The sorted list has no ties left.
  lemma SortedStrictly(pred: seq<EntitySpan>, gold: seq<EntitySpan>, t: real)
    ensures var cs := SortDesc(Rows(pred, gold, t, |pred|));
            forall i, j :: 0 <= i < j < |cs| ==> CandPrecedes(cs[i], cs[j])
  {
    var rows := Rows(pred, gold, t, |pred|);
    RowsInOrder(pred, gold, t, |pred|);
    assert Sorting.Order(AtLeast);
    Sorting.SortStable(AtLeast, CandBefore, rows);
    var cs := SortDesc(rows);
    forall i, j | 0 <= i < j < |cs| ensures CandPrecedes(cs[i], cs[j]) {
      assert AtLeast(cs[i], cs[j]) && (AtLeast(cs[j], cs[i]) ==> CandBefore(cs[i], cs[j]));
    }
  }

  // ---- Greedy choices are a maximal matching ----

  // A chosen pair comes from the list or was there; a listed pair is chosen unless
  // one chosen before it shares an end.
  lemma {:induction false} GreedyExact(cs: seq<Cand>, chosen: set<Pair>, n: nat)
    requires n < |cs| && forall i, j :: 0 <= i < j < |cs| ==> cs[i].pair != cs[j].pair
    requires forall i :: 0 <= i < |cs| ==> cs[i].pair !in chosen
    ensures cs[n].pair in Greedy(cs, chosen) <==>
              !exists q :: q in Greedy(cs, chosen) && Earlier(cs, chosen, n, q) && Meet(q, cs[n].pair)
    decreases |cs|
  {
    var m := cs[0].pair;
    var chosen' := if Free(chosen, m) then chosen + {m} else chosen;
    var all := Greedy(cs, chosen);
    GreedyGrows(cs[1..], chosen');
    if n == 0 {
      if !Free(chosen, m) { NotAdded(cs[1..], chosen', m); }
      assert forall q :: Earlier(cs, chosen, 0, q) <==> q in chosen;
      assert Free(chosen, m) <==> !exists q :: q in chosen && Meet(q, m);
    } else {
      assert cs[1..][n - 1] == cs[n];
      GreedyExact(cs[1..], chosen', n - 1);
      if !Free(chosen, m) { NotAdded(cs[1..], chosen', m); }
      forall q | q in all ensures Earlier(cs, chosen, n, q) <==> Earlier(cs[1..], chosen', n - 1, q) {
        EarlierStep(cs, chosen, n, q);
      }
    }
  }

  predicate Meet(m: Pair, n: Pair) { m.p == n.p || m.g == n.g }

  ghost predicate Earlier(cs: seq<Cand>, chosen: set<Pair>, n: nat, q: Pair)
    requires n <= |cs|
  {
    q in chosen || exists i :: 0 <= i < n && cs[i].pair == q
  }

  lemma EarlierStep(cs: seq<Cand>, chosen: set<Pair>, n: nat, q: Pair)
    requires 0 < n < |cs|
    requires q == cs[0].pair ==> Free(chosen, q)
    ensures var m := cs[0].pair;
            Earlier(cs, chosen, n, q) <==>
              Earlier(cs[1..], if Free(chosen, m) then chosen + {m} else chosen, n - 1, q)
  {
    assert forall i :: 0 <= i < n - 1 ==> cs[1..][i] == cs[i + 1];
    if i :| 0 < i < n && cs[i].pair == q {
      assert cs[1..][i - 1].pair == q;
    }
  }

  lemma {:induction false} NotAdded(cs: seq<Cand>, chosen: set<Pair>, m: Pair)
    requires m !in chosen && forall i :: 0 <= i < |cs| ==> cs[i].pair != m
    ensures m !in Greedy(cs, chosen)
    decreases |cs|
  {
    if cs != [] {
      NotAdded(cs[1..], if Free(chosen, cs[0].pair) then chosen + {cs[0].pair} else chosen, m);
    }
  }

  // A pair is chosen exactly if its types agree, its IoU is above the threshold,
  // and no chosen pair that precedes it uses its prediction or its gold span.
  lemma ChosenExact(pred: seq<EntitySpan>, gold: seq<EntitySpan>, t: real, m: Pair)
    requires m.p < |pred| && m.g < |gold|
    ensures var ms := Chosen(pred, gold, t);
            m in ms <==>
              && pred[m.p].piiType == gold[m.g].piiType && Iou(pred[m.p], gold[m.g]) > t
              && !exists q :: q in ms && q.p < |pred| && q.g < |gold| && (q.p == m.p || q.g == m.g)
                              && Precedes(pred, gold, q, m)
  {
    hide Iou, Rows, Greedy;
    var cs, ms := SortDesc(Rows(pred, gold, t, |pred|)), Chosen(pred, gold, t);
    ChosenMatches(pred, gold, t);
    if Candidate(pred, gold, t, m) {
      Sorted(pred, gold, t);
      SortedStrictly(pred, gold, t);
      var c := Cand(Iou(pred[m.p], gold[m.g]), m);
      assert c in cs;
      var n: nat :| n < |cs| && cs[n] == c;
      PairsDiffer(cs);
      GreedyExact(cs, {}, n);
      forall q | q in ms && Meet(q, m) ensures Earlier(cs, {}, n, q) <==> Precedes(pred, gold, q, m) {
        EarlierPrecedes(pred, gold, t, cs, n, q);
      }
    }
  }

  lemma PairsDiffer(cs: seq<Cand>)
    requires forall i, j :: 0 <= i < j < |cs| ==> CandPrecedes(cs[i], cs[j])
    requires forall c, d :: c in cs && d in cs && c.pair == d.pair ==> c == d
    ensures forall i, j :: 0 <= i < j < |cs| ==> cs[i].pair != cs[j].pair
  {
    forall i, j | 0 <= i < j < |cs| ensures cs[i].pair != cs[j].pair {
      assert CandPrecedes(cs[i], cs[j]) && cs[i] in cs && cs[j] in cs;
    }
  }

  lemma EarlierPrecedes(pred: seq<EntitySpan>, gold: seq<EntitySpan>, t: real, cs: seq<Cand>, n: nat, q: Pair)
    requires n < |cs| && Candidate(pred, gold, t, q)
    requires forall c :: c in cs <==> Scored(pred, gold, t, c)
    requires forall i, j :: 0 <= i < j < |cs| ==> CandPrecedes(cs[i], cs[j])
    ensures Scored(pred, gold, t, cs[n])
    ensures Earlier(cs, {}, n, q) <==> Precedes(pred, gold, q, cs[n].pair)
  {
    hide Iou;
    assert cs[n] in cs;
    var d := Cand(Iou(pred[q.p], gold[q.g]), q);
    assert d in cs;
    var k: nat :| k < |cs| && cs[k] == d;
    if i :| 0 <= i < n && cs[i].pair == q {
      assert cs[i] in cs && CandPrecedes(cs[i], cs[n]);
    }
    if k < n {
      assert CandPrecedes(cs[k], cs[n]);
    } else if k > n {
      assert CandPrecedes(cs[n], cs[k]);
    }
  }

  lemma {:induction false} GreedyMatches(cs: seq<Cand>, chosen: set<Pair>)
    requires IsMatching(chosen)
    ensures chosen <= Greedy(cs, chosen) && IsMatching(Greedy(cs, chosen))
    ensures forall m :: m in Greedy(cs, chosen) ==> m in chosen || exists c :: c in cs && c.pair == m
    ensures forall c :: c in cs ==> !Free(Greedy(cs, chosen), c.pair)
    decreases |cs|
  {
    if cs != [] {
      var m := cs[0].pair;
      var chosen' := if Free(chosen, m) then chosen + {m} else chosen;
      GreedyMatches(cs[1..], chosen');
      assert cs == [cs[0]] + cs[1..];
      assert !Free(chosen', m) by { assert Free(chosen, m) ==> m in chosen'; }
    }
  }

  lemma ChosenMatches(pred: seq<EntitySpan>, gold: seq<EntitySpan>, t: real)
    ensures var ms := Chosen(pred, gold, t);
            && IsMatching(ms)
            && (forall m :: m in ms ==> Candidate(pred, gold, t, m))
            && (forall m :: Candidate(pred, gold, t, m) ==> !Free(ms, m))
  {
    var cs := SortDesc(Rows(pred, gold, t, |pred|));
    Sorted(pred, gold, t);
    GreedyMatches(cs, {});
    forall m | Candidate(pred, gold, t, m) ensures !Free(Chosen(pred, gold, t), m) {
      assert Cand(Iou(pred[m.p], gold[m.g]), m) in cs;
    }
  }

  function Firsts(ms: set<Pair>): set<nat> { set m | m in ms :: m.p }
  function Seconds(ms: set<Pair>): set<nat> { set m | m in ms :: m.g }

  lemma {:induction false} Sizes(ms: set<Pair>)
    requires IsMatching(ms)
    ensures |Firsts(ms)| == |ms| && |Seconds(ms)| == |ms|
    decreases |ms|
  {
    if ms != {} {
      var m :| m in ms;
      Sizes(ms - {m});
      assert Firsts(ms) == Firsts(ms - {m}) + {m.p};
      assert Seconds(ms) == Seconds(ms - {m}) + {m.g};
    }
  }

  // At least half as many pairs as any matching of candidates.
  lemma HalfOptimal(pred: seq<EntitySpan>, gold: seq<EntitySpan>, t: real, other: set<Pair>)
    requires IsMatching(other) && forall m :: m in other ==> Candidate(pred, gold, t, m)
    ensures |other| <= 2 * |Chosen(pred, gold, t)|
  {
    var ms := Chosen(pred, gold, t);
    ChosenMatches(pred, gold, t);
    forall m | m in other ensures m.p in Firsts(ms) || m.g in Seconds(ms) {
      FreeExact(ms, m);
    }
    TwoSides(ms, other);
  }

  // A matching each of whose pairs shares an end with ms is at most twice as big.
  lemma TwoSides(ms: set<Pair>, other: set<Pair>)
    requires IsMatching(ms) && IsMatching(other)
    requires forall m :: m in other ==> m.p in Firsts(ms) || m.g in Seconds(ms)
    ensures |other| <= 2 * |ms|
  {
    var a := set m | m in other && m.p in Firsts(ms);
    SubMatching(a, other);
    SubMatching(other - a, other);
    hide IsMatching;
    SideSize(a, Firsts(ms), {});
    SideSize(other - a, {}, Seconds(ms));
    Sizes(ms);
    assert |other - a| == |other| - |a|;
  }

  lemma SubMatching(a: set<Pair>, b: set<Pair>)
    requires a <= b && IsMatching(b)
    ensures IsMatching(a)
  {
  }

  lemma SideSize(ms: set<Pair>, ps: set<nat>, gs: set<nat>)
    requires IsMatching(ms)
    ensures Firsts(ms) <= ps ==> |ms| <= |ps|
    ensures Seconds(ms) <= gs ==> |ms| <= |gs|
  {
    Sizes(ms);
    if Firsts(ms) <= ps { SubsetSize(Firsts(ms), ps); }
    if Seconds(ms) <= gs { SubsetSize(Seconds(ms), gs); }
  }

  // ---- Disjoint spans, threshold at least one half ----

  ghost predicate PairwiseDisjoint(xs: seq<EntitySpan>) {
    forall i, j :: 0 <= i < j < |xs| ==> xs[i].end <= xs[j].start || xs[j].end <= xs[i].start
  }

  lemma MajorityOverlap(a: EntitySpan, b: EntitySpan, t: real)
    requires 0.5 <= t && Iou(a, b) > t
    ensures 2 * Intersection(a, b) > a.end - a.start && 2 * Intersection(a, b) > b.end - b.start
  {
    var x, y := Intersection(a, b), Union(a, b);
    Ratio(x, y, t);
    Ratio(x, y, 0.5);
    assert (x as real) / (y as real) > 0.5;
    assert 2 * x > y;
  }

  // No span has a majority overlap with two disjoint ones.
  lemma OneMajority(a: EntitySpan, b: EntitySpan, c: EntitySpan, t: real)
    requires 0.5 <= t && (b.end <= c.start || c.end <= b.start)
    ensures !(Iou(a, b) > t && Iou(a, c) > t)
  {
    if Iou(a, b) > t && Iou(a, c) > t {
      MajorityOverlap(a, b, t);
      MajorityOverlap(a, c, t);
    }
  }

  lemma IouSymmetric(a: EntitySpan, b: EntitySpan)
    ensures Iou(a, b) == Iou(b, a)
  {
  }

  // With pairwise disjoint spans on both sides and a threshold of at least one
  // half, no matching of candidates is larger.
  lemma OptimalWhenDisjoint(pred: seq<EntitySpan>, gold: seq<EntitySpan>, t: real, other: set<Pair>)
    requires 0.5 <= t && PairwiseDisjoint(pred) && PairwiseDisjoint(gold)
    requires IsMatching(other) && forall m :: m in other ==> Candidate(pred, gold, t, m)
    ensures |other| <= |Chosen(pred, gold, t)|
  {
    var ms := Chosen(pred, gold, t);
    ChosenMatches(pred, gold, t);
    forall m | m in other ensures m in ms {
      assert !Free(ms, m);
      var q :| q in ms && (q.p == m.p || q.g == m.g);
      if q.p == m.p && q.g != m.g {
        OneMajority(pred[m.p], gold[m.g], gold[q.g], t);
      } else if q.g == m.g && q.p != m.p {
        IouSymmetric(pred[m.p], gold[m.g]);
        IouSymmetric(pred[q.p], gold[q.g]);
        OneMajority(gold[m.g], pred[m.p], pred[q.p], t);
      }
    }
    SubsetSize(other, ms);
  }

  // ---- Against exact matching ----

  datatype Id = Id(piiType: string, start: int, end: int)

  function IdOf(s: EntitySpan): Id { Id(s.piiType, s.start, s.end) }

  function Ids(xs: seq<EntitySpan>): set<Id> {
    set x | x in xs :: IdOf(x)
  }

  // match_exact
  function MatchExact(pred: seq<EntitySpan>, gold: seq<EntitySpan>): (int, int, int) {
    (|Ids(gold) * Ids(pred)|, |Ids(pred) - Ids(gold)|, |Ids(gold) - Ids(pred)|)
  }

  ghost predicate PositiveLength(xs: seq<EntitySpan>) {
    forall x :: x in xs ==> x.start < x.end
  }

  lemma PerfectOverlap(a: EntitySpan, b: EntitySpan)
    requires a.start < a.end && b.start < b.end
    ensures Iou(a, b) >= 1.0 <==> a.start == b.start && a.end == b.end
  {
    Ratio(Intersection(a, b), Union(a, b), 1.0);
  }

  ghost predicate Hits(gold: seq<EntitySpan>, ms: set<Pair>, id: Id) {
    exists m :: m in ms && m.g < |gold| && IdOf(gold[m.g]) == id
  }

  ghost predicate SameId(x: EntitySpan, ys: seq<EntitySpan>) {
    exists y :: y in ys && y.piiType == x.piiType && y.start == x.start && y.end == x.end
  }

  // Each distinct span counts once: as a hit, or as spurious or missed.
  lemma ExactCounts(pred: seq<EntitySpan>, gold: seq<EntitySpan>)
    ensures var (tp, fp, fn) := MatchExact(pred, gold);
            && tp + fp == |Ids(pred)| && tp + fn == |Ids(gold)|
            && (fp == 0 <==> forall x :: x in pred ==> SameId(x, gold))
            && (fn == 0 <==> forall x :: x in gold ==> SameId(x, pred))
  {
    var p, g := Ids(pred), Ids(gold);
    assert p == g * p + (p - g) && g == g * p + (g - p);
    Spurious(pred, gold);
    Spurious(gold, pred);
  }

  lemma Spurious(xs: seq<EntitySpan>, ys: seq<EntitySpan>)
    ensures |Ids(xs) - Ids(ys)| == 0 <==> forall x :: x in xs ==> SameId(x, ys)
  {
    if Ids(xs) - Ids(ys) == {} {
      forall x | x in xs ensures SameId(x, ys) {
        assert IdOf(x) in Ids(xs) && IdOf(x) !in Ids(xs) - Ids(ys);
        var y :| y in ys && IdOf(y) == IdOf(x);
      }
    } else {
      var id :| id in Ids(xs) - Ids(ys);
      var x :| x in xs && IdOf(x) == id;
      assert !SameId(x, ys);
    }
  }

  // Only perfect pairs can block a perfect one, and such a pair has its identity.
  lemma PerfectHits(pred: seq<EntitySpan>, gold: seq<EntitySpan>, t: real, chosen: set<Pair>, m: Pair)
    requires PositiveLength(pred) && PositiveLength(gold) && Candidate(pred, gold, t, m)
    requires IdOf(pred[m.p]) == IdOf(gold[m.g])
    requires forall q :: q in chosen ==>
               Candidate(pred, gold, t, q) && Iou(pred[q.p], gold[q.g]) >= Iou(pred[m.p], gold[m.g])
    ensures Hits(gold, if Free(chosen, m) then chosen + {m} else chosen, IdOf(gold[m.g]))
  {
    hide Iou;
    PerfectOverlap(pred[m.p], gold[m.g]);
    if Free(chosen, m) {
      assert m in chosen + {m};
    } else {
      var q :| q in chosen && (q.p == m.p || q.g == m.g);
      assert pred[q.p] in pred && gold[q.g] in gold;
      PerfectOverlap(pred[q.p], gold[q.g]);
    }
  }

  lemma MoreHits(gold: seq<EntitySpan>, ms: set<Pair>, more: set<Pair>, id: Id)
    requires Hits(gold, ms, id) && ms <= more
    ensures Hits(gold, more, id)
  {
  }

  // Perfect candidates come first, so what is chosen before one is reached is perfect.
  lemma {:induction false} GreedyHits(pred: seq<EntitySpan>, gold: seq<EntitySpan>, t: real, cs: seq<Cand>,
                                      chosen: set<Pair>, m: Pair)
    requires PositiveLength(pred) && PositiveLength(gold) && Descending(cs)
    requires forall c :: c in cs ==> Scored(pred, gold, t, c)
    requires forall q :: q in chosen ==> Candidate(pred, gold, t, q)
    requires forall q, c :: q in chosen && c in cs && Candidate(pred, gold, t, q) ==> Iou(pred[q.p], gold[q.g]) >= c.iou
    requires (exists c :: c in cs && c.pair == m) && Candidate(pred, gold, t, m)
    requires IdOf(pred[m.p]) == IdOf(gold[m.g])
    ensures Hits(gold, Greedy(cs, chosen), IdOf(gold[m.g]))
    decreases |cs|
  {
    hide Iou, Hits;
    var n := cs[0].pair;
    var chosen' := if Free(chosen, n) then chosen + {n} else chosen;
    assert cs == [cs[0]] + cs[1..] && cs[0] in cs;
    if n == m {
      PerfectHits(pred, gold, t, chosen, m);
      GreedyGrows(cs[1..], chosen');
      MoreHits(gold, chosen', Greedy(cs[1..], chosen'), IdOf(gold[m.g]));
    } else {
      forall q, c | q in chosen' && c in cs[1..] ensures Iou(pred[q.p], gold[q.g]) >= c.iou {
        if q == n && q !in chosen {
          var i :| 0 <= i < |cs| - 1 && cs[1..][i] == c;
          assert cs[0].iou >= cs[i + 1].iou;
        }
      }
      GreedyHits(pred, gold, t, cs[1..], chosen', m);
    }
  }

  lemma {:induction false} GreedyGrows(cs: seq<Cand>, chosen: set<Pair>)
    ensures chosen <= Greedy(cs, chosen)
    decreases |cs|
  {
    if cs != [] {
      GreedyGrows(cs[1..], if Free(chosen, cs[0].pair) then chosen + {cs[0].pair} else chosen);
    }
  }

  function GoldIds(gold: seq<EntitySpan>, ms: set<Pair>): set<Id> {
    set m | m in ms && m.g < |gold| :: IdOf(gold[m.g])
  }

  lemma {:induction false} GoldIdsSize(gold: seq<EntitySpan>, ms: set<Pair>)
    ensures |GoldIds(gold, ms)| <= |ms|
    decreases |ms|
  {
    if ms != {} {
      var m :| m in ms;
      GoldIdsSize(gold, ms - {m});
      if m.g < |gold| {
        assert GoldIds(gold, ms) == GoldIds(gold, ms - {m}) + {IdOf(gold[m.g])};
      } else {
        assert GoldIds(gold, ms) == GoldIds(gold, ms - {m});
      }
    }
  }

  lemma CommonHit(pred: seq<EntitySpan>, gold: seq<EntitySpan>, t: real, id: Id)
    requires PositiveLength(pred) && PositiveLength(gold) && t < 1.0
    requires id in Ids(gold) && id in Ids(pred)
    ensures id in GoldIds(gold, Chosen(pred, gold, t))
  {
    hide Iou;
    var x :| x in pred && IdOf(x) == id;
    var y :| y in gold && IdOf(y) == id;
    var p: nat :| p < |pred| && pred[p] == x;
    var g: nat :| g < |gold| && gold[g] == y;
    PerfectOverlap(x, y);
    Sorted(pred, gold, t);
    assert Scored(pred, gold, t, Cand(Iou(x, y), Pair(p, g)));
    GreedyHits(pred, gold, t, SortDesc(Rows(pred, gold, t, |pred|)), {}, Pair(p, g));
  }

  // Partial matching never finds fewer true positives than exact matching.
  lemma PartialCoversExact(pred: seq<EntitySpan>, gold: seq<EntitySpan>, t: real)
    requires PositiveLength(pred) && PositiveLength(gold) && t < 1.0
    ensures MatchExact(pred, gold).0 <= |Chosen(pred, gold, t)|
  {
    var ms, both := Chosen(pred, gold, t), Ids(gold) * Ids(pred);
    forall id | id in both ensures id in GoldIds(gold, ms) {
      CommonHit(pred, gold, t, id);
    }
    GoldIdsSize(gold, ms);
    SubsetSize(both, GoldIds(gold, ms));
  }
}
