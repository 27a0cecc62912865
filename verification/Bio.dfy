// BIO labelling of entities over tokenizer pieces, and its inverse: the decoder
// that rebuilds entity spans from per-piece predictions.
module Bio {
  import opened Wrappers
  import Sorting

  // One tokenizer piece: character offsets and the word it belongs to. Special
  // tokens have offsets (0, 0).
  datatype Piece = Piece(start: nat, end: nat, word: Option<nat>)

  predicate Special(p: Piece) { p.start == 0 && p.end == 0 }

  datatype Entity = Entity(y: string, s: nat, e: nat)

  datatype Label = O | B(y: string) | I(y: string)

  const TYPES := ["pe", "org", "loc", "ind", "med", "leg", "rel", "fin", "pro", "dt"]

  const IGNORED := -100

  function IndexOf(y: string, ts: seq<string>): (k: nat)
    ensures k <= |ts| && (k < |ts| ==> ts[k] == y) && (k == |ts| ==> y !in ts)
  {
    if ts == [] || ts[0] == y then 0 else 1 + IndexOf(y, ts[1..])
  }

  // The label O, then B- and I- of each type in turn.
  function IdIn(l: Label, ts: seq<string>): nat {
    if l.O? || IndexOf(l.y, ts) == |ts| then 0
    else 2 * IndexOf(l.y, ts) + if l.B? then 1 else 2
  }

  function LabelIn(id: int, ts: seq<string>): Label {
    if id <= 0 || id > 2 * |ts| then O
    else if id % 2 == 1 then B(ts[id / 2]) else I(ts[id / 2 - 1])
  }

  // LABEL2ID.get(label, 0) and id2label.get(id, "O") on the 21 labels
  function LabelId(l: Label): nat { IdIn(l, TYPES) }
  function IdLabel(id: int): Label { LabelIn(id, TYPES) }

  lemma InTypes(y: string, ts: seq<string>)
    ensures y in ts <==> IndexOf(y, ts) < |ts|
  {
  }

  lemma Halves(k: nat)
    ensures (2 * k + 1) / 2 == k && (2 * k + 2) / 2 == k + 1 && (2 * k + 1) % 2 == 1 && (2 * k + 2) % 2 == 0
  {
  }

  // The two label tables are inverse on the listed types; an unlisted type is O.
  lemma LabelsInverse(l: Label, ts: seq<string>)
    ensures LabelIn(IdIn(l, ts), ts) == if l.O? || l.y in ts then l else O
  {
    if !l.O? {
      InTypes(l.y, ts);
      Halves(IndexOf(l.y, ts));
    }
  }

  // ---- Encoder ----

  predicate StartsBy(a: Entity, b: Entity) { a.s <= b.s }

  function SortByStart(es: seq<Entity>): seq<Entity> { Sorting.Sort(StartsBy, es) }

  predicate Overlaps(p: Piece, e: Entity) {
    p.start < e.e && p.end > e.s
  }

  // The label of a piece: the first entity, in order, that it overlaps.
  function Tag(p: Piece, es: seq<Entity>): Label {
    if es == [] then O
    else if !Overlaps(p, es[0]) then Tag(p, es[1..])
    else if p.start <= es[0].s then B(es[0].y)
    else I(es[0].y)
  }

  predicate Continues(ps: seq<Piece>, n: nat)
    requires n < |ps|
  {
    n > 0 && ps[n].word == ps[n - 1].word
  }

  function LabelAt(ps: seq<Piece>, es: seq<Entity>, n: nat): int
    requires n < |ps|
  {
    if Special(ps[n]) || Continues(ps, n) then IGNORED else LabelId(Tag(ps[n], es))
  }

  function Encode(ps: seq<Piece>, es: seq<Entity>): (labels: seq<int>)
    ensures |labels| == |ps|
    ensures forall n :: 0 <= n < |ps| ==> labels[n] == LabelAt(ps, SortByStart(es), n)
  {
    seq(|ps|, n requires 0 <= n < |ps| => LabelAt(ps, SortByStart(es), n))
  }

  // The labelling loop of convert_example.
  method ConvertExample(ps: seq<Piece>, entities: seq<Entity>) returns (labels: seq<int>)
    ensures labels == Encode(ps, entities)
  {
    var es := SortByStart(entities);
    labels := [];
    for idx := 0 to |ps|
      invariant |labels| == idx
      invariant forall n :: 0 <= n < idx ==> labels[n] == LabelAt(ps, es, n)
    {
      if Special(ps[idx]) {
        labels := labels + [IGNORED];
      } else if idx > 0 && ps[idx].word == ps[idx - 1].word {
        labels := labels + [IGNORED];
      } else {
        var tag := O;
        var j := 0;
        while j < |es| && !Overlaps(ps[idx], es[j])
          invariant 0 <= j <= |es| && Tag(ps[idx], es[j..]) == Tag(ps[idx], es)
        {
          assert es[j..][1..] == es[j + 1..];
          j := j + 1;
        }
        if j < |es| {
          tag := if ps[idx].start <= es[j].s then B(es[j].y) else I(es[j].y);
        }
        labels := labels + [LabelId(tag)];
      }
    }
  }

  // ---- Decoder ----

  datatype Out = Out(t: string, y: string, s: nat, e: nat)

  datatype Dec = Dec(outs: seq<Out>, cur: Option<Out>, prev: Option<nat>)

  function Open(text: string, y: string, p: Piece): Out {
    Out(Slice(text, p.start, p.end), y, p.start, p.end)
  }

  function Extend(text: string, o: Out, p: Piece): Out {
    o.(e := p.end, t := Slice(text, o.s, p.end))
  }

  function Flush(d: Dec): seq<Out> {
    if d.cur.Some? then d.outs + [d.cur.value] else d.outs
  }

  function DecStep(text: string, d: Dec, id: int, p: Piece): Dec {
    if Special(p) then Dec(Flush(d), None, p.word)
    else if p.word.Some? && p.word == d.prev then
      Dec(d.outs, if d.cur.Some? then Some(Extend(text, d.cur.value, p)) else None, p.word)
    else match IdLabel(id)
      case O => Dec(Flush(d), None, p.word)
      case B(y) => Dec(Flush(d), Some(Open(text, y, p)), p.word)
      case I(y) =>
        if d.cur.Some? && d.cur.value.y == y then Dec(d.outs, Some(Extend(text, d.cur.value, p)), p.word)
        else Dec(Flush(d), Some(Open(text, y, p)), p.word)
  }

  // The decoder after n pieces.
  function DecodeTo(text: string, ids: seq<int>, ps: seq<Piece>, n: nat): Dec
    requires |ids| == |ps| && n <= |ps|
  {
    if n == 0 then Dec([], None, None) else DecStep(text, DecodeTo(text, ids, ps, n - 1), ids[n - 1], ps[n - 1])
  }

  function Decode(text: string, ids: seq<int>, ps: seq<Piece>): seq<Out>
    requires |ids| == |ps|
  {
    Flush(DecodeTo(text, ids, ps, |ps|))
  }

  method ReconstructSpans(text: string, ids: seq<int>, ps: seq<Piece>) returns (entities: seq<Out>)
    requires |ids| == |ps|
    ensures entities == Decode(text, ids, ps)
  {
    entities := [];
    var cur: Option<Out> := None;
    var prev: Option<nat> := None;
    for idx := 0 to |ps|
      invariant Dec(entities, cur, prev) == DecodeTo(text, ids, ps, idx)
    {
      var p := ps[idx];
      if Special(p) {
        if cur.Some? {
          entities := entities + [cur.value];
          cur := None;
        }
      } else if p.word.Some? && p.word == prev {
        if cur.Some? {
          cur := Some(Extend(text, cur.value, p));
        }
      } else {
        match IdLabel(ids[idx]) {
          case B(y) =>
            if cur.Some? {
              entities := entities + [cur.value];
            }
            cur := Some(Open(text, y, p));
          case I(y) =>
            if cur.Some? && cur.value.y == y {
              cur := Some(Extend(text, cur.value, p));
            } else {
              if cur.Some? {
                entities := entities + [cur.value];
              }
              cur := Some(Open(text, y, p));
            }
          case O =>
            if cur.Some? {
              entities := entities + [cur.value];
              cur := None;
            }
        }
      }
      prev := p.word;
    }
    if cur.Some? {
      entities := entities + [cur.value];
    }
  }

  // ---- Decoding undoes encoding ----

  predicate Inside(p: Piece, e: Entity) {
    !Special(p) && e.s <= p.start && p.end <= e.e
  }

  // Pieces come in text order, have positive length and belong to a word;
  // special tokens belong to none.
  ghost predicate Tokenized(ps: seq<Piece>) {
    && (forall i :: 0 <= i < |ps| ==>
          if Special(ps[i]) then ps[i].word.None? else ps[i].word.Some? && ps[i].start < ps[i].end)
    && (forall i, j :: 0 <= i < j < |ps| && !Special(ps[i]) && !Special(ps[j]) ==> ps[i].end <= ps[j].start)
  }

  ghost predicate Entities(es: seq<Entity>) {
    && (forall i :: 0 <= i < |es| ==> es[i].s < es[i].e && es[i].y in TYPES)
    && (forall i, j :: 0 <= i < j < |es| ==> es[i].e <= es[j].s)
  }

  // Entities consist of whole words: they start at a piece, end at a piece, cut
  // no piece and no word, and no special token stands inside one.
  ghost predicate Aligned(ps: seq<Piece>, es: seq<Entity>) {
    && (forall i, j :: 0 <= i < |ps| && 0 <= j < |es| && !Special(ps[i]) && Overlaps(ps[i], es[j]) ==>
          Inside(ps[i], es[j]))
    && (forall i, j :: 0 < i < |ps| && 0 <= j < |es| && !Special(ps[i]) && Continues(ps, i) ==>
          (Inside(ps[i], es[j]) <==> Inside(ps[i - 1], es[j])))
    && (forall j :: 0 <= j < |es| ==> StartsAt(ps, es[j]) && EndsAt(ps, es[j]))
    && (forall h, i, k, j :: 0 <= h < i < k < |ps| && 0 <= j < |es| && Inside(ps[h], es[j]) && Inside(ps[k], es[j]) ==>
          !Special(ps[i]))
  }

  ghost predicate StartsAt(ps: seq<Piece>, e: Entity) {
    exists i :: 0 <= i < |ps| && Inside(ps[i], e) && ps[i].start == e.s
  }

  ghost predicate EndsAt(ps: seq<Piece>, e: Entity) {
    exists i :: 0 <= i < |ps| && Inside(ps[i], e) && ps[i].end == e.e
  }

  function OutOf(text: string, e: Entity): Out {
    Out(Slice(text, e.s, e.e), e.y, e.s, e.e)
  }

  function Outs(text: string, es: seq<Entity>): (r: seq<Out>)
    ensures |r| == |es| && forall i :: 0 <= i < |r| ==> r[i] == OutOf(text, es[i])
  {
    if es == [] then [] else [OutOf(text, es[0])] + Outs(text, es[1..])
  }

  // ---- What the conditions give, one fact at a time ----

  ghost predicate Setting(ps: seq<Piece>, es: seq<Entity>) {
    Tokenized(ps) && Entities(es) && Aligned(ps, es)
  }

  lemma InOrder(ps: seq<Piece>, es: seq<Entity>, i: nat, j: nat)
    requires Setting(ps, es) && i < j < |ps| && !Special(ps[i]) && !Special(ps[j])
    ensures ps[i].start < ps[i].end <= ps[j].start < ps[j].end
  {
  }

  lemma Apart(ps: seq<Piece>, es: seq<Entity>, i: nat, j: nat)
    requires Setting(ps, es) && i < j < |es|
    ensures es[i].s < es[i].e <= es[j].s < es[j].e
  {
  }

  lemma OneOwner(ps: seq<Piece>, es: seq<Entity>, n: nat, i: nat, j: nat)
    requires Setting(ps, es) && n < |ps| && i < |es| && j < |es| && Inside(ps[n], es[i]) && Inside(ps[n], es[j])
    ensures i == j
  {
    if i < j { Apart(ps, es, i, j); }
    if j < i { Apart(ps, es, j, i); }
  }

  // A piece between two pieces of an entity is inside it too.
  lemma Between(ps: seq<Piece>, es: seq<Entity>, h: nat, i: nat, k: nat, j: nat)
    requires Setting(ps, es) && h < i < k < |ps| && j < |es| && Inside(ps[h], es[j]) && Inside(ps[k], es[j])
    ensures Inside(ps[i], es[j])
  {
    assert !Special(ps[i]);
    InOrder(ps, es, h, i);
    InOrder(ps, es, i, k);
  }

  lemma FirstPiece(ps: seq<Piece>, es: seq<Entity>, j: nat) returns (i: nat)
    requires Setting(ps, es) && j < |es|
    ensures i < |ps| && Inside(ps[i], es[j]) && ps[i].start == es[j].s
  {
    assert StartsAt(ps, es[j]);
    i :| 0 <= i < |ps| && Inside(ps[i], es[j]) && ps[i].start == es[j].s;
  }

  lemma LastPiece(ps: seq<Piece>, es: seq<Entity>, j: nat) returns (i: nat)
    requires Setting(ps, es) && j < |es|
    ensures i < |ps| && Inside(ps[i], es[j]) && ps[i].end == es[j].e
  {
    assert EndsAt(ps, es[j]);
    i :| 0 <= i < |ps| && Inside(ps[i], es[j]) && ps[i].end == es[j].e;
  }

  lemma SameWord(ps: seq<Piece>, es: seq<Entity>, n: nat, j: nat)
    requires Setting(ps, es) && n < |ps| && j < |es| && !Special(ps[n]) && Continues(ps, n)
    ensures Inside(ps[n], es[j]) <==> Inside(ps[n - 1], es[j])
  {
  }

  // ---- The invariant of the decoder ----

  ghost predicate Begun(ps: seq<Piece>, e: Entity, n: nat) {
    exists i :: 0 <= i < n && i < |ps| && Inside(ps[i], e)
  }

  ghost predicate Outside(p: Piece, es: seq<Entity>) {
    forall j :: 0 <= j < |es| ==> !Inside(p, es[j])
  }

  // Exactly the first k entities have begun among the first n pieces.
  ghost predicate Counted(ps: seq<Piece>, es: seq<Entity>, n: nat, k: nat) {
    k <= |es| && forall j :: 0 <= j < |es| ==> (j < k <==> Begun(ps, es[j], n))
  }

  // All of them are out, except that the last one is current while the last
  // piece is inside it.
  ghost predicate Tracks(text: string, ps: seq<Piece>, es: seq<Entity>, n: nat, k: nat, d: Dec)
    requires n <= |ps| && k <= |es|
  {
    && d.prev == (if n == 0 then None else ps[n - 1].word)
    && (match d.cur
        case None => d.outs == Outs(text, es[..k]) && (n > 0 ==> Outside(ps[n - 1], es))
        case Some(o) =>
          && n > 0 && k > 0 && d.outs == Outs(text, es[..k - 1])
          && Inside(ps[n - 1], es[k - 1])
          && o == Out(Slice(text, es[k - 1].s, ps[n - 1].end), es[k - 1].y, es[k - 1].s, ps[n - 1].end))
  }

  lemma {:induction false} OutsAppend(text: string, es: seq<Entity>, e: Entity)
    ensures Outs(text, es + [e]) == Outs(text, es) + [OutOf(text, e)]
    decreases |es|
  {
    if es != [] {
      assert (es + [e])[0] == es[0] && (es + [e])[1..] == es[1..] + [e];
      OutsAppend(text, es[1..], e);
    }
  }

  // When the next piece is not inside the current entity, that entity is complete.
  lemma Completed(text: string, ps: seq<Piece>, es: seq<Entity>, n: nat, k: nat, d: Dec)
    requires Setting(ps, es) && n <= |ps| && k <= |es| && Tracks(text, ps, es, n, k, d)
    requires d.cur.Some? && n < |ps| ==> !Inside(ps[n], es[k - 1])
    ensures Flush(d) == Outs(text, es[..k])
  {
    hide Setting, Outs;
    if d.cur.Some? {
      var i := LastPiece(ps, es, k - 1);
      if i > n {
        Between(ps, es, n - 1, n, i, k - 1);
      }
      if i < n - 1 {
        InOrder(ps, es, i, n - 1);
      }
      assert es[..k] == es[..k - 1] + [es[k - 1]];
      OutsAppend(text, es[..k - 1], es[k - 1]);
    }
  }

  lemma {:induction false} TagExact(p: Piece, es: seq<Entity>)
    requires Entities(es) && !Special(p) && p.start < p.end
    requires forall j :: 0 <= j < |es| && Overlaps(p, es[j]) ==> Inside(p, es[j])
    ensures forall j :: 0 <= j < |es| && Inside(p, es[j]) ==>
              Tag(p, es) == if p.start == es[j].s then B(es[j].y) else I(es[j].y)
    ensures Outside(p, es) ==> Tag(p, es) == O
    decreases |es|
  {
    if es != [] {
      TagExact(p, es[1..]);
      assert Overlaps(p, es[0]) <==> Inside(p, es[0]);
      forall j | 0 <= j < |es| && Inside(p, es[j])
        ensures Tag(p, es) == if p.start == es[j].s then B(es[j].y) else I(es[j].y)
      {
        if j > 0 {
          assert es[1..][j - 1] == es[j];
        }
      }
      if Outside(p, es) {
        assert Inside(p, es[0]) == false;
        assert forall j :: 0 <= j < |es| - 1 ==> es[1..][j] == es[j + 1];
      }
    }
  }

  // How many entities have begun after one more piece.
  lemma CountOutside(ps: seq<Piece>, es: seq<Entity>, n: nat, k: nat)
    requires Counted(ps, es, n, k) && n < |ps|
    requires forall j :: k <= j < |es| ==> !Inside(ps[n], es[j])
    ensures Counted(ps, es, n + 1, k)
  {
    forall j | 0 <= j < |es| ensures j < k <==> Begun(ps, es[j], n + 1) {
      BegunMore(ps, es[j], n);
    }
  }

  lemma BegunMore(ps: seq<Piece>, e: Entity, n: nat)
    requires n < |ps|
    ensures Begun(ps, e, n + 1) <==> Begun(ps, e, n) || Inside(ps[n], e)
  {
  }

  lemma CountBegin(ps: seq<Piece>, es: seq<Entity>, n: nat, k: nat)
    requires Setting(ps, es) && Counted(ps, es, n, k) && n < |ps| && k < |es| && Inside(ps[n], es[k])
    ensures Counted(ps, es, n + 1, k + 1)
  {
    hide Setting, Begun;
    forall j | 0 <= j < |es| ensures j < k + 1 <==> Begun(ps, es[j], n + 1) {
      BegunMore(ps, es[j], n);
      if Inside(ps[n], es[j]) {
        OneOwner(ps, es, n, j, k);
      }
    }
  }

  // The first piece of an entity belongs to the next one to begin.
  lemma FirstIsNext(ps: seq<Piece>, es: seq<Entity>, n: nat, k: nat, j: nat)
    requires Setting(ps, es) && Counted(ps, es, n, k) && n < |ps|
    requires j < |es| && Inside(ps[n], es[j]) && ps[n].start == es[j].s
    ensures j == k
  {
    hide Setting;
    assert k <= j <==> !Begun(ps, es[j], n);
    if j < k {
      var i :| 0 <= i < n && Inside(ps[i], es[j]);
      InOrder(ps, es, i, n);
    } else if k < j {
      var i := FirstPiece(ps, es, k);
      Apart(ps, es, k, j);
      if n < i {
        InOrder(ps, es, n, i);
      }
    }
  }

  // A later piece of an entity follows a piece of the same entity, which is the
  // last one to have begun.
  lemma LaterIsCurrent(ps: seq<Piece>, es: seq<Entity>, n: nat, k: nat, j: nat)
    requires Setting(ps, es) && Counted(ps, es, n, k) && n < |ps|
    requires j < |es| && Inside(ps[n], es[j]) && ps[n].start != es[j].s
    ensures n > 0 && Inside(ps[n - 1], es[j]) && j + 1 == k
  {
    hide Setting;
    var i := FirstPiece(ps, es, j);
    if n < i {
      InOrder(ps, es, n, i);
    }
    if i < n - 1 {
      Between(ps, es, i, n - 1, n, j);
    }
    assert Begun(ps, es[j], n);
    if j + 1 < k {
      assert Begun(ps, es[j + 1], n);
      var m :| 0 <= m < n && Inside(ps[m], es[j + 1]);
      Apart(ps, es, j, j + 1);
      if m < n - 1 { InOrder(ps, es, m, n - 1); } else { OneOwner(ps, es, m, j, j + 1); }
    }
  }

  // A piece outside every entity, a special token, or a word's later piece.
  lemma StepOut(text: string, ps: seq<Piece>, es: seq<Entity>, n: nat, k: nat, d: Dec)
    requires Setting(ps, es) && Counted(ps, es, n, k) && n < |ps| && Tracks(text, ps, es, n, k, d)
    requires Outside(ps[n], es)
    ensures Counted(ps, es, n + 1, k) && Tracks(text, ps, es, n + 1, k, Dec(Flush(d), None, ps[n].word))
    ensures !Special(ps[n]) && Continues(ps, n) ==> d.cur.None?
  {
    hide Setting, Outs;
    Completed(text, ps, es, n, k, d);
    CountOutside(ps, es, n, k);
    if d.cur.Some? && !Special(ps[n]) && Continues(ps, n) {
      SameWord(ps, es, n, k - 1);
    }
  }

  lemma StepBegin(text: string, ps: seq<Piece>, es: seq<Entity>, n: nat, k: nat, d: Dec, j: nat)
    requires Setting(ps, es) && Counted(ps, es, n, k) && n < |ps| && Tracks(text, ps, es, n, k, d)
    requires j < |es| && Inside(ps[n], es[j]) && ps[n].start == es[j].s
    ensures k < |es| && Counted(ps, es, n + 1, k + 1)
    ensures Tracks(text, ps, es, n + 1, k + 1, Dec(Flush(d), Some(Open(text, es[j].y, ps[n])), ps[n].word))
    ensures !Continues(ps, n)
  {
    hide Setting, Outs, Counted;
    FirstIsNext(ps, es, n, k, j);
    if d.cur.Some? && Inside(ps[n], es[k - 1]) {
      OneOwner(ps, es, n, k - 1, k);
    }
    Completed(text, ps, es, n, k, d);
    CountBegin(ps, es, n, k);
    if Continues(ps, n) {
      SameWord(ps, es, n, j);
      InOrder(ps, es, n - 1, n);
    }
    assert es[..k + 1][..k] == es[..k];
  }

  lemma StepInside(text: string, ps: seq<Piece>, es: seq<Entity>, n: nat, k: nat, d: Dec, j: nat)
    requires Setting(ps, es) && Counted(ps, es, n, k) && n < |ps| && Tracks(text, ps, es, n, k, d)
    requires j < |es| && Inside(ps[n], es[j]) && ps[n].start != es[j].s
    ensures d.cur.Some? && d.cur.value.y == es[j].y && Counted(ps, es, n + 1, k)
    ensures Tracks(text, ps, es, n + 1, k, Dec(d.outs, Some(Extend(text, d.cur.value, ps[n])), ps[n].word))
  {
    hide Setting, Outs;
    LaterIsCurrent(ps, es, n, k, j);
    forall i | k <= i < |es| ensures !Inside(ps[n], es[i]) {
      if Inside(ps[n], es[i]) { OneOwner(ps, es, n, i, j); }
    }
    CountOutside(ps, es, n, k);
  }

  // What the decoder needs of the predictions: the encoder's label wherever the
  // encoder gave one. Predictions at ignored positions are arbitrary.
  ghost predicate Predicts(ids: seq<int>, ps: seq<Piece>, es: seq<Entity>) {
    |ids| == |ps| && forall n :: 0 <= n < |ps| && LabelAt(ps, es, n) != IGNORED ==> ids[n] == LabelAt(ps, es, n)
  }

  lemma Predicted(ids: seq<int>, ps: seq<Piece>, es: seq<Entity>, n: nat)
    requires Setting(ps, es) && Predicts(ids, ps, es) && n < |ps| && !Special(ps[n]) && !Continues(ps, n)
    ensures forall j :: 0 <= j < |es| && Inside(ps[n], es[j]) ==>
              IdLabel(ids[n]) == if ps[n].start == es[j].s then B(es[j].y) else I(es[j].y)
    ensures Outside(ps[n], es) ==> IdLabel(ids[n]) == O
  {
    TagOf(ps, es, n);
    LabelsInverse(Tag(ps[n], es), TYPES);
    hide IdIn, LabelIn, Tag, Setting;
    assert LabelAt(ps, es, n) == LabelId(Tag(ps[n], es)) == ids[n];
  }

  // The encoder's label of the first piece of a word.
  lemma TagOf(ps: seq<Piece>, es: seq<Entity>, n: nat)
    requires Setting(ps, es) && n < |ps| && !Special(ps[n])
    ensures forall j :: 0 <= j < |es| && Inside(ps[n], es[j]) ==>
              es[j].y in TYPES && Tag(ps[n], es) == if ps[n].start == es[j].s then B(es[j].y) else I(es[j].y)
    ensures Outside(ps[n], es) ==> Tag(ps[n], es) == O
  {
    TagExact(ps[n], es);
    hide Tag;
  }

  lemma PrevKnown(text: string, ps: seq<Piece>, es: seq<Entity>, n: nat, k: nat, d: Dec)
    requires Setting(ps, es) && n < |ps| && k <= |es| && Tracks(text, ps, es, n, k, d)
    ensures Special(ps[n]) || ps[n].word.Some?
    ensures !Special(ps[n]) ==> (ps[n].word == d.prev <==> Continues(ps, n))
  {
  }

  // One piece: the invariant moves from n to n + 1.
  lemma Step(text: string, ids: seq<int>, ps: seq<Piece>, es: seq<Entity>, n: nat, k: nat, d: Dec) returns (k': nat)
    requires Setting(ps, es) && Predicts(ids, ps, es)
    requires k <= |es| && Counted(ps, es, n, k) && n < |ps| && |ids| == |ps| && Tracks(text, ps, es, n, k, d)
    ensures k' <= |es| && Counted(ps, es, n + 1, k') && Tracks(text, ps, es, n + 1, k', DecStep(text, d, ids[n], ps[n]))
  {
    hide Setting, Predicts, Tracks, Counted, IdLabel, Continues;
    k' := k;
    PrevKnown(text, ps, es, n, k, d);
    if !Special(ps[n]) && !Continues(ps, n) {
      Predicted(ids, ps, es, n);
    }
    if Outside(ps[n], es) {
      StepOut(text, ps, es, n, k, d);
      assert DecStep(text, d, ids[n], ps[n]) == Dec(Flush(d), None, ps[n].word);
    } else {
      var j :| 0 <= j < |es| && Inside(ps[n], es[j]);
      if ps[n].start == es[j].s {
        StepBegin(text, ps, es, n, k, d, j);
        k' := k + 1;
      } else {
        StepInside(text, ps, es, n, k, d, j);
      }
    }
  }

  lemma DecodeStart(text: string, ps: seq<Piece>, es: seq<Entity>)
    ensures Counted(ps, es, 0, 0) && Tracks(text, ps, es, 0, 0, Dec([], None, None))
  {
  }

  lemma {:induction false} DecodeTracks(text: string, ids: seq<int>, ps: seq<Piece>, es: seq<Entity>,
                                        n: nat) returns (k: nat)
    requires Setting(ps, es) && Predicts(ids, ps, es) && |ids| == |ps| && n <= |ps|
    ensures k <= |es| && Counted(ps, es, n, k) && Tracks(text, ps, es, n, k, DecodeTo(text, ids, ps, n))
    decreases n
  {
    hide Setting, Predicts, Counted, Tracks, DecStep;
    if n == 0 {
      k := 0;
      DecodeStart(text, ps, es);
    } else {
      var j := DecodeTracks(text, ids, ps, es, n - 1);
      k := Step(text, ids, ps, es, n - 1, j, DecodeTo(text, ids, ps, n - 1));
    }
  }

  lemma DecodeSorted(text: string, ids: seq<int>, ps: seq<Piece>, es: seq<Entity>)
    requires Setting(ps, es) && Predicts(ids, ps, es) && |ids| == |ps|
    ensures Decode(text, ids, ps) == Outs(text, es)
  {
    var k := DecodeTracks(text, ids, ps, es, |ps|);
    hide Setting, Predicts, DecodeTo;
    Completed(text, ps, es, |ps|, k, DecodeTo(text, ids, ps, |ps|));
    if k < |es| {
      assert !Begun(ps, es[k], |ps|);
      var i := FirstPiece(ps, es, k);
    }
    assert es[..k] == es;
  }

  // Decoding the encoder's labels returns exactly the entities, each with its
  // slice of the text, whatever is predicted at the ignored positions.
  lemma DecodeUndoesEncode(text: string, ids: seq<int>, ps: seq<Piece>, es: seq<Entity>)
    requires Tokenized(ps) && Entities(es) && Aligned(ps, es)
    requires |ids| == |ps| && forall n :: 0 <= n < |ps| && Encode(ps, es)[n] != IGNORED ==> ids[n] == Encode(ps, es)[n]
    ensures Decode(text, ids, ps) == Outs(text, es)
  {
    assert forall i, j :: 0 <= i < j < |es| ==> StartsBy(es[i], es[j]);
    Sorting.SortSorted(StartsBy, es);
    DecodeSorted(text, ids, ps, es);
  }
}
