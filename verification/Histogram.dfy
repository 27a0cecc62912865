// The latency histogram: ring buffers that keep the most recent observations,
// and the nearest-rank percentile over them. Exact arithmetic stands in for floats.
module Histogram {
  import Sorting

  datatype Ring = Ring(buf: seq<real>, cursor: nat, full: bool)

  const EMPTY := Ring([], 0, false)

  predicate Fits(cap: nat, r: Ring) {
    cap > 0 && |r.buf| <= cap && r.full == (|r.buf| == cap)
  }

  // _ring_append for a capacity of cap samples
  function Append(cap: nat, r: Ring, v: real): Ring
    requires Fits(cap, r)
  {
    if !r.full && |r.buf| < cap then
      var buf := r.buf + [v];
      Ring(buf, |buf| % cap, |buf| == cap)
    else
      Ring(r.buf[r.cursor % cap := v], (r.cursor + 1) % cap, true)
  }

  // The last min(n, cap) of n observations.
  function Latest(cap: nat, history: seq<real>): seq<real> {
    if |history| <= cap then history else history[|history| - cap..]
  }

  function Unrolled(r: Ring): seq<real> {
    if r.full && r.cursor < |r.buf| then r.buf[r.cursor..] + r.buf[..r.cursor] else r.buf
  }

  // The ring, read from its cursor round, is the latest observations.
  predicate Holds(cap: nat, r: Ring, history: seq<real>) {
    && Fits(cap, r)
    && r.full == (|history| >= cap)
    && (if r.full then r.cursor < cap else r.cursor == |history|)
    && Unrolled(r) == Latest(cap, history)
  }

  // Overwriting the entry at the cursor drops the oldest and appends the new one.
  lemma Turn(buf: seq<real>, c: nat, v: real)
    requires c < |buf|
    ensures (buf[c..] + buf[..c])[1..] + [v] == buf[c + 1..] + buf[..c] + [v]
    ensures buf[c := v][c + 1..] + buf[c := v][..c + 1] == buf[c + 1..] + buf[..c] + [v]
  {
    assert buf[c := v][..c + 1] == buf[..c] + [v];
    assert buf[c..] == [buf[c]] + buf[c + 1..];
  }

  lemma LatestMore(cap: nat, history: seq<real>, v: real)
    requires cap > 0
    ensures Latest(cap, history + [v])
         == (if |history| < cap then Latest(cap, history) else Latest(cap, history)[1..]) + [v]
  {
  }

  lemma Wrap(cap: nat, c: nat)
    requires c < cap
    ensures c % cap == c && (c + 1) % cap == if c + 1 == cap then 0 else c + 1
  {
  }

  lemma AppendUnrolled(cap: nat, r: Ring, v: real)
    requires Fits(cap, r) && (r.full ==> r.cursor < cap)
    ensures var r' := Append(cap, r, v);
            && Fits(cap, r')
            && (if r'.full then r'.cursor < cap else r'.cursor == |r.buf| + 1)
            && Unrolled(r') == (if r.full then Unrolled(r)[1..] else Unrolled(r)) + [v]
  {
    var r' := Append(cap, r, v);
    if r.full {
      Wrap(cap, r.cursor);
      Turn(r.buf, r.cursor, v);
      assert r'.buf[0..] + r'.buf[..0] == r'.buf[cap..] + r'.buf[..cap];
    } else {
      Wrap(cap, |r.buf|);
      assert r'.buf[0..] + r'.buf[..0] == r'.buf;
    }
  }

  lemma AppendHolds(cap: nat, r: Ring, history: seq<real>, v: real)
    requires Holds(cap, r, history)
    ensures Holds(cap, Append(cap, r, v), history + [v])
  {
    hide Append, Unrolled, Latest;
    LatestMore(cap, history, v);
    AppendUnrolled(cap, r, v);
    SizeOfLatest(cap, history);
    SizeOfLatest(cap, history + [v]);
    SizeOfUnrolled(r);
    SizeOfUnrolled(Append(cap, r, v));
  }

  lemma SizeOfLatest(cap: nat, history: seq<real>)
    ensures |Latest(cap, history)| == if |history| <= cap then |history| else cap
  {
  }

  lemma SizeOfUnrolled(r: Ring)
    ensures |Unrolled(r)| == |r.buf|
  {
  }

  // Observations in order, each with its label key.
  datatype Obs = Obs(key: string, value: real)

  function Values(history: seq<Obs>): seq<real> {
    if history == [] then [] else Values(history[..|history| - 1]) + [history[|history| - 1].value]
  }

  function Labelled(history: seq<Obs>, key: string): seq<Obs> {
    if history == [] then []
    else
      var last := history[|history| - 1];
      Labelled(history[..|history| - 1], key) + if last.key == key then [last] else []
  }

  class Metric {
    const cap: nat
    var all: Ring
    var byLabel: map<string, Ring>
    ghost var history: seq<Obs>

    ghost predicate Valid()
      reads this
    {
      && cap > 0
      && Holds(cap, all, Values(history))
      && (forall key :: key in byLabel ==> Holds(cap, byLabel[key], Values(Labelled(history, key))))
      && (forall key :: key !in byLabel ==> Labelled(history, key) == [])
    }

    constructor (cap: nat)
      requires cap > 0
      ensures Valid() && history == [] && this.cap == cap
    {
      this.cap := cap;
      all := EMPTY;
      byLabel := map[];
      history := [];
    }

    method Observe(value: real, key: string)
      requires Valid()
      modifies this
      ensures Valid() && history == old(history) + [Obs(key, value)]
    {
      hide Holds, Append, Labelled, Values, Fits;
      var o := Obs(key, value);
      NewRing(cap);
      LabelledMore(history, o);
      AppendHolds(cap, all, Values(history), value);
      HoldsFits(cap, all, Values(history));
      all := Append(cap, all, value);
      var ring := if key in byLabel then byLabel[key] else EMPTY;
      AppendHolds(cap, ring, Values(Labelled(history, key)), value);
      HoldsFits(cap, ring, Values(Labelled(history, key)));
      byLabel := byLabel[key := Append(cap, ring, value)];
      history := history + [o];
    }
  }

  lemma NewRing(cap: nat)
    ensures Values([]) == [] && (cap > 0 ==> Holds(cap, EMPTY, []))
  {
  }

  lemma HoldsFits(cap: nat, r: Ring, history: seq<real>)
    requires Holds(cap, r, history)
    ensures Fits(cap, r)
  {
  }

  lemma LabelledMore(history: seq<Obs>, o: Obs)
    ensures Labelled(history + [o], o.key) == Labelled(history, o.key) + [o]
    ensures Values(Labelled(history + [o], o.key)) == Values(Labelled(history, o.key)) + [o.value]
    ensures forall key :: key != o.key ==> Labelled(history + [o], key) == Labelled(history, key)
    ensures Values(history + [o]) == Values(history) + [o.value]
  {
    assert (history + [o])[..|history|] == history;
    var l := Labelled(history, o.key);
    assert (l + [o])[..|l|] == l;
  }

  // ---- Percentiles ----

  predicate Leq(a: real, b: real) { a <= b }

  function Sort(xs: seq<real>): seq<real> { Sorting.Sort(Leq, xs) }

  predicate Ascending(xs: seq<real>) {
    forall i, j :: 0 <= i < j < |xs| ==> xs[i] <= xs[j]
  }

  // How many samples are at most x, and how many are below x.
  function AtMost(xs: seq<real>, x: real): nat {
    if xs == [] then 0 else (if xs[0] <= x then 1 else 0) + AtMost(xs[1..], x)
  }

  function Below(xs: seq<real>, x: real): nat {
    if xs == [] then 0 else (if xs[0] < x then 1 else 0) + Below(xs[1..], x)
  }

  lemma {:induction false} CountsJoin(xs: seq<real>, ys: seq<real>, x: real)
    ensures AtMost(xs + ys, x) == AtMost(xs, x) + AtMost(ys, x)
    ensures Below(xs + ys, x) == Below(xs, x) + Below(ys, x)
    decreases |xs|
  {
    if xs == [] {
      assert xs + ys == ys;
    } else {
      assert (xs + ys)[1..] == xs[1..] + ys;
      CountsJoin(xs[1..], ys, x);
    }
  }

  // The counts depend on the samples, not on their order.
  lemma {:induction false} CountsSameBag(xs: seq<real>, ys: seq<real>, x: real)
    requires multiset(xs) == multiset(ys)
    ensures AtMost(xs, x) == AtMost(ys, x) && Below(xs, x) == Below(ys, x)
    decreases |xs|
  {
    Sorting.SameElements(xs, ys);
    if xs != [] {
      assert xs[0] in ys;
      var j :| 0 <= j < |ys| && ys[j] == xs[0];
      var one, a, b := [xs[0]], ys[..j], ys[j + 1..];
      Sorting.TakeOut(xs, ys, j);
      CountsSameBag(xs[1..], a + b, x);
      CountsJoin(one, xs[1..], x);
      CountsJoin(a + one, b, x);
      CountsJoin(a, one, x);
      CountsJoin(a, b, x);
    }
  }

  lemma SortCounts(xs: seq<real>, x: real)
    ensures Ascending(Sort(xs)) && |Sort(xs)| == |xs|
    ensures forall z :: z in Sort(xs) <==> z in xs
    ensures AtMost(Sort(xs), x) == AtMost(xs, x) && Below(Sort(xs), x) == Below(xs, x)
  {
    assert Sorting.Order(Leq);
    Sorting.SortSorts(Leq, xs);
    Sorting.SameElements(Sort(xs), xs);
    CountsSameBag(Sort(xs), xs, x);
  }

  // _percentile on sorted samples: index ceil(p / 100 * n) - 1, clamped.
  function Rank(p: nat, n: nat): int {
    (p * n + 99) / 100 - 1
  }

  function Percentile(sorted: seq<real>, p: nat): real {
    if sorted == [] then 0.0
    else
      var i := Rank(p, |sorted|);
      sorted[if i < 0 then 0 else if i >= |sorted| then |sorted| - 1 else i]
  }

  lemma {:induction false} CountsAt(xs: seq<real>, i: nat)
    requires Ascending(xs) && i < |xs|
    ensures AtMost(xs, xs[i]) >= i + 1 && Below(xs, xs[i]) <= i
    decreases i
  {
    if i == 0 {
      assert forall k :: 0 <= k < |xs| ==> xs[0] <= xs[k];
      NoneBelow(xs, xs[0]);
    } else {
      CountsAt(xs[1..], i - 1);
    }
  }

  lemma {:induction false} NoneBelow(xs: seq<real>, x: real)
    requires forall k :: 0 <= k < |xs| ==> x <= xs[k]
    ensures Below(xs, x) == 0
    decreases |xs|
  {
    if xs != [] {
      NoneBelow(xs[1..], x);
    }
  }

  lemma RankBounds(p: nat, n: nat)
    requires 0 < p <= 100 && n > 0
    ensures 0 <= Rank(p, n) < n && p * n <= 100 * (Rank(p, n) + 1) && 100 * Rank(p, n) < p * n
  {
    assert p * n <= 100 * n;
    assert p * n > 0;
  }

  lemma PercentileOfSort(xs: seq<real>, p: nat)
    requires xs != [] && 0 < p <= 100
    ensures var x := Percentile(Sort(xs), p);
            x in xs && 100 * AtMost(xs, x) >= p * |xs| && 100 * Below(xs, x) < p * |xs|
  {
    var x := Percentile(Sort(xs), p);
    SortCounts(xs, x);
    RankBounds(p, |xs|);
    CountsAt(Sort(xs), Rank(p, |xs|));
    assert x == Sort(xs)[Rank(p, |xs|)] && x in Sort(xs);
  }

  // The percentile reported from a ring is one of the latest observations; at
  // least p percent of these are at or below it, and fewer than p percent below.
  lemma PercentileExact(cap: nat, r: Ring, history: seq<real>, p: nat)
    requires Holds(cap, r, history) && history != [] && 0 < p <= 100
    ensures var x, latest := Percentile(Sort(r.buf), p), Latest(cap, history);
            x in latest && 100 * AtMost(latest, x) >= p * |latest| && 100 * Below(latest, x) < p * |latest|
  {
    var x, latest, c := Percentile(Sort(r.buf), p), Latest(cap, history), r.cursor;
    PercentileOfSort(r.buf, p);
    if r.full {
      CountsJoin(r.buf[..c], r.buf[c..], x);
      CountsJoin(r.buf[c..], r.buf[..c], x);
      assert r.buf == r.buf[..c] + r.buf[c..];
    }
  }
}
