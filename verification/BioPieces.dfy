// What the label of each piece means, for any pieces, entities and predictions: the
// label table, the encoder's choice and the decoder's outputs.
module BioPieces {
  import opened Wrappers
  import opened Bio
  import Sorting

  // ---- The label table ----

  const LABELS: seq<Label> := [
    O,
    B("pe"), I("pe"), B("org"), I("org"), B("loc"), I("loc"),
    B("ind"), I("ind"), B("med"), I("med"), B("leg"), I("leg"),
    B("rel"), I("rel"), B("fin"), I("fin"), B("pro"), I("pro"),
    B("dt"), I("dt")
  ]

  lemma LabelTable(id: int)
    ensures IdLabel(id) == if 0 <= id < 21 then LABELS[id] else O
  {
  }

  // The position of a listed label, 0 for any other.
  lemma LabelPosition(l: Label)
    ensures if l in LABELS then LABELS[LabelId(l)] == l else LabelId(l) == 0
  {
    LabelTable(LabelId(l));
    LabelsInverse(l, TYPES);
    if l.O? {
      assert LABELS[0] == l;
    } else if l.y in TYPES {
      IdInRange(l, TYPES);
      assert LABELS[LabelId(l)] == l;
    } else {
      InTypes(l.y, TYPES);
      assert forall k :: 0 <= k < 21 && !LABELS[k].O? ==> LABELS[k].y in TYPES;
    }
  }

  lemma IdInRange(l: Label, ts: seq<string>)
    ensures IdIn(l, ts) <= 2 * |ts|
  {
  }

  // ---- The encoder ----

  // The overlapping entity that starts first, the first listed among equals.
  ghost predicate Leftmost(p: Piece, es: seq<Entity>, j: nat) {
    && j < |es| && Meets(p, es[j])
    && (forall i :: 0 <= i < |es| && Meets(p, es[i]) ==> es[i].s > es[j].s || (es[i].s == es[j].s && j <= i))
  }

  // They share a character.
  predicate Meets(p: Piece, e: Entity) {
    p.start < e.e && e.s < p.end
  }

  ghost predicate ByStart(es: seq<Entity>) {
    forall i, j :: 0 <= i < j < |es| ==> es[i].s <= es[j].s
  }

  function TagFor(p: Piece, e: Entity): Label {
    if p.start <= e.s then B(e.y) else I(e.y)
  }

  lemma TagHead(p: Piece, y: Entity, rest: seq<Entity>)
    ensures Tag(p, [y] + rest) == if Meets(p, y) then TagFor(p, y) else Tag(p, rest)
  {
    assert ([y] + rest)[1..] == rest;
  }

  lemma InsertHead(x: Entity, ys: seq<Entity>)
    ensures Sorting.Insert(StartsBy, x, ys)
            == if ys == [] || x.s <= ys[0].s then [x] + ys else [ys[0]] + Sorting.Insert(StartsBy, x, ys[1..])
  {
  }

  // An entity that the piece does not meet leaves its tag alone.
  lemma {:induction false} InsertMissed(p: Piece, x: Entity, ys: seq<Entity>)
    requires !Meets(p, x)
    ensures Tag(p, Sorting.Insert(StartsBy, x, ys)) == Tag(p, ys)
    decreases |ys|
  {
    hide Tag, Meets, Sorting.Insert;
    InsertHead(x, ys);
    TagHead(p, x, ys);
    if ys != [] {
      assert ys == [ys[0]] + ys[1..];
      TagHead(p, ys[0], ys[1..]);
      TagHead(p, ys[0], Sorting.Insert(StartsBy, x, ys[1..]));
      InsertMissed(p, x, ys[1..]);
    }
  }

  // One that starts no later than any other that the piece meets sets it.
  lemma {:induction false} InsertFirst(p: Piece, x: Entity, ys: seq<Entity>)
    requires Meets(p, x) && forall i :: 0 <= i < |ys| && Meets(p, ys[i]) ==> x.s <= ys[i].s
    ensures Tag(p, Sorting.Insert(StartsBy, x, ys)) == TagFor(p, x)
    decreases |ys|
  {
    hide Tag, Meets, TagFor, Sorting.Insert;
    InsertHead(x, ys);
    TagHead(p, x, ys);
    if ys != [] && x.s > ys[0].s {
      TagHead(p, ys[0], Sorting.Insert(StartsBy, x, ys[1..]));
      InsertFirst(p, x, ys[1..]);
    }
  }

  // One that starts later than another that the piece meets leaves it alone.
  lemma {:induction false} InsertLater(p: Piece, x: Entity, ys: seq<Entity>, i: nat)
    requires ByStart(ys) && i < |ys| && Meets(p, ys[i]) && ys[i].s < x.s
    ensures Tag(p, Sorting.Insert(StartsBy, x, ys)) == Tag(p, ys)
    decreases |ys|
  {
    hide Tag, Meets, TagFor, Sorting.Insert;
    InsertHead(x, ys);
    assert ys == [ys[0]] + ys[1..];
    TagHead(p, ys[0], ys[1..]);
    TagHead(p, ys[0], Sorting.Insert(StartsBy, x, ys[1..]));
    if i > 0 {
      InsertLater(p, x, ys[1..], i - 1);
    }
  }

  lemma SortedByStart(es: seq<Entity>)
    ensures ByStart(SortByStart(es)) && forall x :: x in SortByStart(es) <==> x in es
  {
    assert Sorting.Order(StartsBy);
    Sorting.SortSorts(StartsBy, es);
    Sorting.SameElements(SortByStart(es), es);
    forall i, j | 0 <= i < j < |SortByStart(es)| ensures SortByStart(es)[i].s <= SortByStart(es)[j].s {
      assert StartsBy(SortByStart(es)[i], SortByStart(es)[j]);
    }
  }

  lemma SortHead(es: seq<Entity>)
    requires es != []
    ensures SortByStart(es) == Sorting.Insert(StartsBy, es[0], SortByStart(es[1..]))
  {
  }

  // How one more entity in front changes which one is leftmost.
  lemma LeftmostMore(p: Piece, x: Entity, rest: seq<Entity>, k: nat)
    ensures Leftmost(p, rest, k) && (!Meets(p, x) || rest[k].s < x.s) ==> Leftmost(p, [x] + rest, k + 1)
    ensures Leftmost(p, rest, k) && Meets(p, x) && x.s <= rest[k].s ==> Leftmost(p, [x] + rest, 0)
    ensures (forall e :: e in rest ==> !Meets(p, e)) && Meets(p, x) ==> Leftmost(p, [x] + rest, 0)
  {
    hide Meets;
    var es := [x] + rest;
    assert es[0] == x && forall i :: 0 < i < |es| ==> es[i] == rest[i - 1];
  }

  lemma {:induction false} TagSorted(p: Piece, es: seq<Entity>) returns (j: nat)
    ensures j < |es| ==> Leftmost(p, es, j) && Tag(p, SortByStart(es)) == TagFor(p, es[j])
    ensures j >= |es| ==> (forall e :: e in es ==> !Meets(p, e)) && Tag(p, SortByStart(es)) == O
    decreases |es|
  {
    hide TagFor, Meets, Leftmost;
    j := 0;
    if es != [] {
      hide Tag, SortByStart, ByStart;
      var x, rest := es[0], es[1..];
      var k := TagSorted(p, rest);
      SortHead(es);
      SortedByStart(rest);
      assert es == [x] + rest;
      LeftmostMore(p, x, rest, k);
      if !Meets(p, x) {
        InsertMissed(p, x, SortByStart(rest));
        j := if k < |rest| then k + 1 else |es|;
      } else if k < |rest| && rest[k].s < x.s {
        LeftmostMeets(p, rest, k);
        assert rest[k] in SortByStart(rest);
        var i: nat :| i < |SortByStart(rest)| && SortByStart(rest)[i] == rest[k];
        InsertLater(p, x, SortByStart(rest), i);
        j := k + 1;
      } else {
        NoneBefore(p, x, rest, k);
        InsertFirst(p, x, SortByStart(rest));
      }
    }
  }

  lemma LeftmostMeets(p: Piece, es: seq<Entity>, k: nat)
    requires Leftmost(p, es, k)
    ensures k < |es| && Meets(p, es[k])
  {
  }

  lemma NoneBefore(p: Piece, x: Entity, es: seq<Entity>, k: nat)
    requires if k < |es| then Leftmost(p, es, k) && x.s <= es[k].s else forall e :: e in es ==> !Meets(p, e)
    ensures forall y :: y in SortByStart(es) && Meets(p, y) ==> x.s <= y.s
  {
    SortedByStart(es);
    hide SortByStart, Meets;
    forall y | y in SortByStart(es) && Meets(p, y) ensures x.s <= y.s {
      var i: nat :| i < |es| && es[i] == y;
    }
  }

  // The label of every piece: ignored for a special token and for the later pieces
  // of a word; else O, or B- or I- of the first entity that it shares a character
  // with, by whether the piece starts at or before that entity.
  lemma EncodeExact(ps: seq<Piece>, es: seq<Entity>, n: nat) returns (j: nat)
    requires n < |ps|
    ensures var p, id := ps[n], Encode(ps, es)[n];
            if (p.start == 0 && p.end == 0) || (n > 0 && p.word == ps[n - 1].word) then id == -100
            else if exists e :: e in es && Meets(p, e) then
              Leftmost(p, es, j) && id == LabelId(if p.start <= es[j].s then B(es[j].y) else I(es[j].y))
            else id == 0
  {
    j := TagSorted(ps[n], es);
    if j < |es| {
      assert es[j] in es;
    }
  }

  // ---- The decoder ----

  // A later piece of a word.
  predicate Later(ps: seq<Piece>, k: nat)
    requires k < |ps|
  {
    k > 0 && ps[k].word.Some? && ps[k].word == ps[k - 1].word
  }

  // The type of the entity that piece k belongs to, if any.
  function TypeAt(ids: seq<int>, ps: seq<Piece>, k: nat): Option<string>
    requires |ids| == |ps| && k < |ps|
  {
    if Special(ps[k]) then None
    else if Later(ps, k) then TypeAt(ids, ps, k - 1)
    else match IdLabel(ids[k])
      case O => None
      case B(y) => Some(y)
      case I(y) => Some(y)
  }

  // An entity begins at every B- label, and at an I- label that does not go on
  // with an entity of its type.
  predicate Begins(ids: seq<int>, ps: seq<Piece>, k: nat)
    requires |ids| == |ps| && k < |ps|
  {
    && !Special(ps[k]) && !Later(ps, k)
    && match IdLabel(ids[k])
       case O => false
       case B(_) => true
       case I(y) => k == 0 || TypeAt(ids, ps, k - 1) != Some(y)
  }

  predicate GoesOn(ids: seq<int>, ps: seq<Piece>, k: nat)
    requires |ids| == |ps| && k < |ps|
  {
    TypeAt(ids, ps, k).Some? && !Begins(ids, ps, k)
  }

  lemma PieceFacts(ids: seq<int>, ps: seq<Piece>, k: nat)
    requires |ids| == |ps| && k < |ps|
    ensures Begins(ids, ps, k) ==> TypeAt(ids, ps, k).Some?
    ensures GoesOn(ids, ps, k) ==> k > 0 && TypeAt(ids, ps, k - 1) == TypeAt(ids, ps, k)
    ensures Special(ps[k]) ==> TypeAt(ids, ps, k).None?
  {
  }

  // The last of the first n pieces that belongs with piece k.
  function RunEnd(ids: seq<int>, ps: seq<Piece>, k: nat, n: nat): (m: nat)
    requires |ids| == |ps| && k < n <= |ps|
    ensures k <= m < n
    decreases n - k
  {
    if k + 1 < n && GoesOn(ids, ps, k + 1) then RunEnd(ids, ps, k + 1, n) else k
  }

  // From the start of piece k to the end of the last piece that goes on with it.
  function RunOut(text: string, ids: seq<int>, ps: seq<Piece>, k: nat, n: nat): Out
    requires |ids| == |ps| && k < n <= |ps| && TypeAt(ids, ps, k).Some?
  {
    var s, e := ps[k].start, ps[RunEnd(ids, ps, k, n)].end;
    Out(Slice(text, s, e), TypeAt(ids, ps, k).value, s, e)
  }

  // The outputs that begin among the first k of n pieces, in order.
  function Runs(text: string, ids: seq<int>, ps: seq<Piece>, k: nat, n: nat): seq<Out>
    requires |ids| == |ps| && k <= n <= |ps|
  {
    if k == 0 then []
    else Runs(text, ids, ps, k - 1, n)
         + (PieceFacts(ids, ps, k - 1);
            if Begins(ids, ps, k - 1) then [RunOut(text, ids, ps, k - 1, n)] else [])
  }

  // What stops at s does not see the pieces after it.
  lemma {:induction false} RunEndSame(ids: seq<int>, ps: seq<Piece>, k: nat, s: nat, n: nat)
    requires |ids| == |ps| && k < s <= n < |ps| && !GoesOn(ids, ps, s)
    ensures RunEnd(ids, ps, k, n + 1) == RunEnd(ids, ps, k, n)
    decreases n - k
  {
    hide GoesOn;
    if k + 1 < s {
      RunEndSame(ids, ps, k + 1, s, n);
    }
  }

  lemma {:induction false} RunEndAll(ids: seq<int>, ps: seq<Piece>, k: nat, n: nat)
    requires |ids| == |ps| && k < n <= |ps| && forall i :: k < i < n ==> GoesOn(ids, ps, i)
    ensures RunEnd(ids, ps, k, n) == n - 1
    decreases n - k
  {
    hide GoesOn;
    if k + 1 < n {
      RunEndAll(ids, ps, k + 1, n);
    }
  }

  lemma {:induction false} RunsSame(text: string, ids: seq<int>, ps: seq<Piece>, k: nat, s: nat, n: nat)
    requires |ids| == |ps| && k <= s <= n < |ps| && !GoesOn(ids, ps, s)
    ensures Runs(text, ids, ps, k, n + 1) == Runs(text, ids, ps, k, n)
    decreases k
  {
    hide GoesOn, Begins, TypeAt;
    if k > 0 {
      RunsSame(text, ids, ps, k - 1, s, n);
      PieceFacts(ids, ps, k - 1);
      RunEndSame(ids, ps, k - 1, s, n);
    }
  }

  // Where the entity of piece k begins.
  function Head(ids: seq<int>, ps: seq<Piece>, k: nat): (h: nat)
    requires |ids| == |ps| && k < |ps| && TypeAt(ids, ps, k).Some?
    ensures h <= k && Begins(ids, ps, h) && TypeAt(ids, ps, h) == TypeAt(ids, ps, k)
    ensures forall i :: h < i <= k ==> GoesOn(ids, ps, i)
  {
    PieceFacts(ids, ps, k);
    if Begins(ids, ps, k) then k else Head(ids, ps, k - 1)
  }

  lemma {:induction false} RunsFrom(text: string, ids: seq<int>, ps: seq<Piece>, h: nat, k: nat, n: nat)
    requires |ids| == |ps| && h <= k <= n <= |ps| && forall i :: h <= i < k ==> GoesOn(ids, ps, i)
    ensures Runs(text, ids, ps, k, n) == Runs(text, ids, ps, h, n)
    decreases k
  {
    if h < k {
      RunsFrom(text, ids, ps, h, k - 1, n);
      assert GoesOn(ids, ps, k - 1);
    }
  }

  // The open entity, seen in the first n pieces, is the last run.
  lemma RunsOpen(text: string, ids: seq<int>, ps: seq<Piece>, k: nat, n: nat)
    requires |ids| == |ps| && k < n <= |ps| && n <= k + 2 && TypeAt(ids, ps, k).Some?
    requires n == k + 2 ==> GoesOn(ids, ps, k + 1)
    ensures var h := Head(ids, ps, k);
            && Runs(text, ids, ps, k + 1, n) == Runs(text, ids, ps, h, n) + [RunOut(text, ids, ps, h, n)]
            && RunEnd(ids, ps, h, n) == n - 1
  {
    var h := Head(ids, ps, k);
    RunsFrom(text, ids, ps, h + 1, k + 1, n);
    RunEndAll(ids, ps, h, n);
  }

  // The decoder after n pieces holds the runs of these, the last one open while
  // the last piece belongs to one.
  ghost predicate Holds(text: string, ids: seq<int>, ps: seq<Piece>, n: nat, d: Dec)
    requires |ids| == |ps| && n <= |ps|
  {
    && d.prev == (if n == 0 then None else ps[n - 1].word)
    && Flush(d) == Runs(text, ids, ps, n, n)
    && (if n > 0 && TypeAt(ids, ps, n - 1).Some?
        then d.cur.Some? && d.cur.value == RunOut(text, ids, ps, Head(ids, ps, n - 1), n)
        else d.cur.None?)
  }

  lemma HoldsOpen(text: string, ids: seq<int>, ps: seq<Piece>, n: nat, d: Dec)
    requires |ids| == |ps| && n < |ps| && Holds(text, ids, ps, n, d) && !GoesOn(ids, ps, n)
    ensures Flush(d) == Runs(text, ids, ps, n, n + 1)
  {
    RunsSame(text, ids, ps, n, n, n);
  }

  lemma StepEnds(text: string, ids: seq<int>, ps: seq<Piece>, n: nat, d: Dec)
    requires |ids| == |ps| && n < |ps| && Holds(text, ids, ps, n, d) && TypeAt(ids, ps, n).None?
    ensures Holds(text, ids, ps, n + 1, Dec(Flush(d), None, ps[n].word))
  {
    HoldsOpen(text, ids, ps, n, d);
    PieceFacts(ids, ps, n);
    hide Begins, TypeAt;
  }

  lemma StepBegins(text: string, ids: seq<int>, ps: seq<Piece>, n: nat, d: Dec)
    requires |ids| == |ps| && n < |ps| && Holds(text, ids, ps, n, d) && Begins(ids, ps, n)
    ensures TypeAt(ids, ps, n).Some?
    ensures Holds(text, ids, ps, n + 1, Dec(Flush(d), Some(Open(text, TypeAt(ids, ps, n).value, ps[n])), ps[n].word))
  {
    HoldsOpen(text, ids, ps, n, d);
    PieceFacts(ids, ps, n);
    RunsOpen(text, ids, ps, n, n + 1);
    hide Begins, TypeAt;
  }

  lemma StepGoesOn(text: string, ids: seq<int>, ps: seq<Piece>, n: nat, d: Dec)
    requires |ids| == |ps| && n < |ps| && Holds(text, ids, ps, n, d) && GoesOn(ids, ps, n)
    ensures d.cur.Some? && Some(d.cur.value.y) == TypeAt(ids, ps, n)
    ensures Holds(text, ids, ps, n + 1, Dec(d.outs, Some(Extend(text, d.cur.value, ps[n])), ps[n].word))
  {
    PieceFacts(ids, ps, n);
    var h := Head(ids, ps, n - 1);
    assert Head(ids, ps, n) == h && !GoesOn(ids, ps, h);
    hide Begins, TypeAt, GoesOn, Runs, RunEnd, Head;
    RunsSame(text, ids, ps, h, h, n);
    RunsOpen(text, ids, ps, n - 1, n);
    LastOf(d, Runs(text, ids, ps, h, n), RunOut(text, ids, ps, h, n));
    RunsOpen(text, ids, ps, n, n + 1);
    assert RunOut(text, ids, ps, h, n + 1) == Extend(text, RunOut(text, ids, ps, h, n), ps[n]);
  }

  lemma LastOf(d: Dec, outs: seq<Out>, o: Out)
    requires d.cur == Some(o) && Flush(d) == outs + [o]
    ensures d.outs == outs
  {
    assert Flush(d)[..|d.outs|] == d.outs && (outs + [o])[..|outs|] == outs;
  }

  lemma {:induction false} DecodeHolds(text: string, ids: seq<int>, ps: seq<Piece>, n: nat)
    requires |ids| == |ps| && n <= |ps|
    ensures Holds(text, ids, ps, n, DecodeTo(text, ids, ps, n))
    decreases n
  {
    if n > 0 {
      DecodeHolds(text, ids, ps, n - 1);
      OneMore(text, ids, ps, n - 1, DecodeTo(text, ids, ps, n - 1));
    }
  }

  lemma OneMore(text: string, ids: seq<int>, ps: seq<Piece>, n: nat, d: Dec)
    requires |ids| == |ps| && n < |ps| && Holds(text, ids, ps, n, d)
    ensures Holds(text, ids, ps, n + 1, DecStep(text, d, ids[n], ps[n]))
  {
    assert d.prev == if n == 0 then None else ps[n - 1].word;
    assert n > 0 ==> (d.cur.Some? <==> TypeAt(ids, ps, n - 1).Some?);
    assert n > 0 && d.cur.Some? ==> Some(d.cur.value.y) == TypeAt(ids, ps, n - 1);
    assert n == 0 ==> d.cur.None?;
    hide Holds, IdLabel;
    if TypeAt(ids, ps, n).None? {
      StepEnds(text, ids, ps, n, d);
    } else if Begins(ids, ps, n) {
      StepBegins(text, ids, ps, n, d);
    } else {
      StepGoesOn(text, ids, ps, n, d);
    }
  }

  // The outputs are the runs, in order, whatever the predictions are.
  lemma DecodeExact(text: string, ids: seq<int>, ps: seq<Piece>)
    requires |ids| == |ps|
    ensures Decode(text, ids, ps) == Runs(text, ids, ps, |ps|, |ps|)
  {
    DecodeHolds(text, ids, ps, |ps|);
  }

  lemma {:induction false} RunsHold(text: string, ids: seq<int>, ps: seq<Piece>, k: nat, n: nat, o: Out)
    requires |ids| == |ps| && k <= n <= |ps|
    ensures o in Runs(text, ids, ps, k, n) <==> exists h: nat :: h < k && RunsAt(text, ids, ps, h, n, o)
    decreases k
  {
    hide Begins, TypeAt;
    if k > 0 {
      RunsHold(text, ids, ps, k - 1, n, o);
      PieceFacts(ids, ps, k - 1);
      assert RunsAt(text, ids, ps, k - 1, n, o) <==> Begins(ids, ps, k - 1) && o == RunOut(text, ids, ps, k - 1, n);
    }
  }

  // o is the run that begins at piece h.
  predicate RunsAt(text: string, ids: seq<int>, ps: seq<Piece>, h: nat, n: nat, o: Out)
    requires |ids| == |ps| && h < n <= |ps|
  {
    PieceFacts(ids, ps, h);
    Begins(ids, ps, h) && o == RunOut(text, ids, ps, h, n)
  }

  lemma {:induction false} RunType(ids: seq<int>, ps: seq<Piece>, h: nat, i: nat, n: nat)
    requires |ids| == |ps| && h < n <= |ps| && h <= i <= RunEnd(ids, ps, h, n)
    ensures TypeAt(ids, ps, i) == TypeAt(ids, ps, h)
    decreases n - h
  {
    if h < i {
      PieceFacts(ids, ps, h + 1);
      hide TypeAt, GoesOn;
      RunType(ids, ps, h + 1, i, n);
    }
  }

  lemma {:induction false} RunReaches(ids: seq<int>, ps: seq<Piece>, h: nat, i: nat, n: nat)
    requires |ids| == |ps| && h <= i < n <= |ps| && forall k :: h < k <= i ==> GoesOn(ids, ps, k)
    ensures RunEnd(ids, ps, h, n) >= i
    decreases n - h
  {
    hide GoesOn;
    if h < i {
      RunReaches(ids, ps, h + 1, i, n);
    }
  }

  // ---- The outputs in terms of the labels ----

  lemma Ordered(ps: seq<Piece>, i: nat, j: nat)
    requires Tokenized(ps) && i <= j < |ps| && !Special(ps[i]) && !Special(ps[j])
    ensures ps[i].start < ps[i].end && ps[j].start < ps[j].end
    ensures i < j ==> ps[i].end <= ps[j].start
  {
  }

  ghost predicate InOutput(outs: seq<Out>, p: Piece, y: string) {
    !Special(p) && exists o :: o in outs && o.y == y && o.s <= p.start && p.end <= o.e
  }

  ghost predicate Starts(outs: seq<Out>, p: Piece) {
    exists o :: o in outs && o.s == p.start
  }

  // A run shares a character with its own pieces alone, and covers each of them.
  lemma RunCovers(text: string, ids: seq<int>, ps: seq<Piece>, h: nat, n: nat, o: Out)
    requires |ids| == |ps| && Tokenized(ps) && h < |ps| && RunsAt(text, ids, ps, h, |ps|, o)
    requires n < |ps| && !Special(ps[n])
    ensures o.s < ps[n].end && ps[n].start < o.e ==> TypeAt(ids, ps, n) == Some(o.y)
    ensures h <= n <= RunEnd(ids, ps, h, |ps|) ==> o.s <= ps[n].start && ps[n].end <= o.e
    ensures o.s == ps[n].start ==> h == n
  {
    var m := RunEnd(ids, ps, h, |ps|);
    RunType(ids, ps, h, m, |ps|);
    PieceFacts(ids, ps, h);
    PieceFacts(ids, ps, m);
    assert !Special(ps[h]) && !Special(ps[m]);
    hide Tokenized, TypeAt, Begins, RunEnd;
    if n < h { Ordered(ps, n, h); } else { Ordered(ps, h, n); }
    if n <= m { Ordered(ps, n, m); } else { Ordered(ps, m, n); }
    if h <= n <= m {
      RunType(ids, ps, h, n, |ps|);
    }
  }

  lemma OutputIs(text: string, ids: seq<int>, ps: seq<Piece>, o: Out) returns (h: nat)
    requires |ids| == |ps| && o in Decode(text, ids, ps)
    ensures h < |ps| && RunsAt(text, ids, ps, h, |ps|, o)
  {
    DecodeExact(text, ids, ps);
    RunsHold(text, ids, ps, |ps|, |ps|, o);
    h :| h < |ps| && RunsAt(text, ids, ps, h, |ps|, o);
  }

  lemma OutputFrom(text: string, ids: seq<int>, ps: seq<Piece>, h: nat)
    requires |ids| == |ps| && h < |ps| && Begins(ids, ps, h)
    ensures TypeAt(ids, ps, h).Some? && RunOut(text, ids, ps, h, |ps|) in Decode(text, ids, ps)
  {
    PieceFacts(ids, ps, h);
    DecodeExact(text, ids, ps);
    hide Decode, Runs, Begins, TypeAt, RunOut;
    var o := RunOut(text, ids, ps, h, |ps|);
    assert RunsAt(text, ids, ps, h, |ps|, o);
    RunsHold(text, ids, ps, |ps|, |ps|, o);
  }

  // A piece lies inside an output of its own type, and starts one where one begins.
  lemma PieceOwner(text: string, ids: seq<int>, ps: seq<Piece>, n: nat, y: string)
    requires |ids| == |ps| && Tokenized(ps) && n < |ps| && !Special(ps[n])
    ensures var outs := Decode(text, ids, ps);
            && (InOutput(outs, ps[n], y) <==> TypeAt(ids, ps, n) == Some(y))
            && (Starts(outs, ps[n]) <==> Begins(ids, ps, n))
  {
    var outs := Decode(text, ids, ps);
    Ordered(ps, n, n);
    hide Decode, TypeAt, Begins, RunEnd, Tokenized;
    if InOutput(outs, ps[n], y) {
      var o :| o in outs && o.y == y && o.s <= ps[n].start && ps[n].end <= o.e;
      var h := OutputIs(text, ids, ps, o);
      RunCovers(text, ids, ps, h, n, o);
    }
    if TypeAt(ids, ps, n) == Some(y) {
      var h := Head(ids, ps, n);
      RunReaches(ids, ps, h, n, |ps|);
      OutputFrom(text, ids, ps, h);
      RunCovers(text, ids, ps, h, n, RunOut(text, ids, ps, h, |ps|));
    }
    if Starts(outs, ps[n]) {
      var o :| o in outs && o.s == ps[n].start;
      var h := OutputIs(text, ids, ps, o);
      RunCovers(text, ids, ps, h, n, o);
    }
    if Begins(ids, ps, n) {
      OutputFrom(text, ids, ps, n);
    }
  }

  lemma Untouched(text: string, ids: seq<int>, ps: seq<Piece>, n: nat)
    requires |ids| == |ps| && Tokenized(ps) && n < |ps| && !Special(ps[n]) && TypeAt(ids, ps, n).None?
    ensures forall o :: o in Decode(text, ids, ps) ==> o.e <= ps[n].start || ps[n].end <= o.s
  {
    hide Decode, TypeAt, Tokenized;
    forall o | o in Decode(text, ids, ps) ensures o.e <= ps[n].start || ps[n].end <= o.s {
      var h := OutputIs(text, ids, ps, o);
      RunCovers(text, ids, ps, h, n, o);
    }
  }

  // What each label means for the outputs, for any predictions. A later piece of a
  // word goes with the piece before it. A piece labelled O shares no character with
  // an output. One labelled B- or I- of a type lies inside an output of that type; a
  // B- label always starts a new one, an I- label does so unless the piece before
  // lies inside an output of the same type.
  lemma LabelsDecide(text: string, ids: seq<int>, ps: seq<Piece>, n: nat)
    requires |ids| == |ps| && Tokenized(ps) && n < |ps| && !Special(ps[n])
    ensures var outs, p := Decode(text, ids, ps), ps[n];
            if n > 0 && p.word == ps[n - 1].word then
              !Starts(outs, p) && forall y :: InOutput(outs, p, y) <==> InOutput(outs, ps[n - 1], y)
            else match IdLabel(ids[n])
              case O => forall o :: o in outs ==> o.e <= p.start || p.end <= o.s
              case B(y) => InOutput(outs, p, y) && Starts(outs, p)
              case I(y) => InOutput(outs, p, y) && (Starts(outs, p) <==> n == 0 || !InOutput(outs, ps[n - 1], y))
  {
    var outs := Decode(text, ids, ps);
    assert ps[n].word.Some?;
    hide Decode, Tokenized, Starts;
    if n > 0 && ps[n].word == ps[n - 1].word {
      assert !Special(ps[n - 1]);
      forall y ensures InOutput(outs, ps[n], y) <==> InOutput(outs, ps[n - 1], y) {
        PieceOwner(text, ids, ps, n, y);
        PieceOwner(text, ids, ps, n - 1, y);
      }
      PieceOwner(text, ids, ps, n, "");
    } else if IdLabel(ids[n]).O? {
      Untouched(text, ids, ps, n);
    } else {
      var y := IdLabel(ids[n]).y;
      PieceOwner(text, ids, ps, n, y);
      if n > 0 && !Special(ps[n - 1]) {
        PieceOwner(text, ids, ps, n - 1, y);
      }
    }
  }

  // Every output starts at the first piece of a word with a B- or I- label of its
  // type, ends with a piece, and carries its slice of the text.
  lemma EveryOutput(text: string, ids: seq<int>, ps: seq<Piece>, o: Out) returns (h: nat, m: nat)
    requires |ids| == |ps| && o in Decode(text, ids, ps)
    ensures h <= m < |ps| && o.s == ps[h].start && o.e == ps[m].end && o.t == Slice(text, o.s, o.e)
    ensures !Special(ps[h]) && !Later(ps, h) && (IdLabel(ids[h]) == B(o.y) || IdLabel(ids[h]) == I(o.y))
  {
    h := OutputIs(text, ids, ps, o);
    m := RunEnd(ids, ps, h, |ps|);
  }
}
