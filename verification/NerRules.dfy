// The boundary rules in terms of the characters of the text: which neighbours end
// up in one entity, and what is cut off either end.
module NerRules {
  import opened Wrappers
  import opened NerFusion

  // ---- Which neighbours are merged ----

  ghost predicate Together(r: seq<Span>, a: Span, b: Span) {
    exists m :: m in r && m.kind == a.kind == b.kind && m.s <= a.s && b.e <= m.e
  }

  // Of one kind, one space apart; in an address one or two spaces or commas apart.
  predicate Near(a: Span, b: Span, text: string) {
    var gap := Slice(text, a.e, b.s);
    a.kind == b.kind
    && (gap == " " || (a.kind == "ind" && 1 <= |gap| <= 2 && forall c :: c in gap ==> c == ' ' || c == ','))
  }

  lemma NearExact(xs: seq<Span>, text: string, i: nat)
    requires 0 < i < |xs|
    ensures IsHead(xs, text, i) <==> !Near(xs[i - 1], xs[i], text)
  {
    var gap := Slice(text, xs[i - 1].e, xs[i].s);
    if gap == " " {
      assert gap[0] == ' ';
      assert '\n' !in gap;
    } else if xs[i - 1].kind == "ind" && |gap| <= 2 {
      assert forall c :: c in gap ==> exists k :: 0 <= k < |gap| && gap[k] == c;
      assert forall k :: 0 <= k < |gap| ==> gap[k] in gap;
    }
  }

  // The last output holds the last input, and ends with it.
  lemma {:induction false} LastHolds(xs: seq<Span>, n: nat, text: string)
    requires Bounded(xs, text) && Disjoint(xs) && 0 < n <= |xs|
    ensures var last := Merged(xs, n, text)[|Merged(xs, n, text)| - 1];
            last.s <= xs[n - 1].s && last.e == xs[n - 1].e && last.kind == xs[n - 1].kind
    decreases n
  {
    hide Merged, IsHead, Bounded, Disjoint;
    MergedLast(xs, n, text);
    MergedStep(xs, n - 1, text);
    if n > 1 {
      LastHolds(xs, n - 1, text);
      EndsLater(xs, text, n - 1);
    } else {
      MergedNext(xs, text);
    }
  }

  lemma TogetherNew(r: seq<Span>, x: Span, a: Span, b: Span)
    requires b.s < b.e && (a.s < x.s || x.kind != a.kind)
    ensures Together(r + [x], a, b) <==> Together(r, a, b)
  {
    assert forall m :: m in r + [x] <==> m in r || m == x;
  }

  lemma TogetherGlued(r: seq<Span>, x: Span, a: Span, b: Span)
    requires r != [] && r[|r| - 1].e <= x.e
    requires b.e <= r[|r| - 1].e || (b == x && a.e <= x.s && r[|r| - 1].kind == x.kind)
    ensures var last := r[|r| - 1];
            Together(r[..|r| - 1] + [Glue(last, x)], a, b)
            <==> Together(r[..|r| - 1], a, b) || (last.kind == a.kind == b.kind && last.s <= a.s)
    ensures b.e <= r[|r| - 1].e ==>
              (Together(r[..|r| - 1] + [Glue(r[|r| - 1], x)], a, b) <==> Together(r, a, b))
  {
    var n := |r| - 1;
    var g := Glue(r[n], x);
    assert r == r[..n] + [r[n]];
    assert forall m :: m in r[..n] + [g] <==> m in r[..n] || m == g;
    assert forall m :: m in r <==> m in r[..n] || m == r[n];
  }

  lemma EarlierPair(xs: seq<Span>, text: string, i: nat, n: nat)
    requires Bounded(xs, text) && Disjoint(xs) && 0 < i < n < |xs|
    ensures xs[i - 1].s < xs[n].s && xs[i].s < xs[i].e <= xs[n - 1].e
  {
  }

  // Before the last of n + 1 inputs is merged, no output reaches it.
  lemma NotYet(xs: seq<Span>, text: string, n: nat)
    requires Bounded(xs, text) && Disjoint(xs) && 0 < n < |xs|
    ensures !Together(Merged(xs, n, text), xs[n - 1], xs[n])
  {
    MergedDisjoint(xs, n, text);
    MergedLast(xs, n, text);
    var r := Merged(xs, n, text);
    hide Merged;
    forall m | m in r ensures m.e < xs[n].e {
      var k :| 0 <= k < |r| && r[k] == m;
      assert xs[n - 1].e <= xs[n].s < xs[n].e;
    }
  }

  lemma {:induction false} MergedTogether(xs: seq<Span>, n: nat, text: string, i: nat)
    requires Bounded(xs, text) && Disjoint(xs) && 0 < i < n <= |xs|
    ensures Together(Merged(xs, n, text), xs[i - 1], xs[i]) <==> !IsHead(xs, text, i)
    decreases n
  {
    hide Merged, IsHead, Together, Bounded, Disjoint;
    var k := n - 1;
    var r, x := Merged(xs, k, text), xs[k];
    MergedStep(xs, k, text);
    LastHolds(xs, k, text);
    if i < k {
      MergedTogether(xs, k, text, i);
      EarlierPair(xs, text, i, k);
      if IsHead(xs, text, k) {
        TogetherNew(r, x, xs[i - 1], xs[i]);
      } else {
        EndsLater(xs, text, k);
        TogetherGlued(r, x, xs[i - 1], xs[i]);
      }
    } else {
      EndsLater(xs, text, k);
      NotYet(xs, text, k);
      if IsHead(xs, text, k) {
        TogetherNew(r, x, xs[k - 1], x);
      } else {
        TogetherGlued(r, x, xs[k - 1], x);
      }
    }
  }

  lemma EndsLater(xs: seq<Span>, text: string, n: nat)
    requires Bounded(xs, text) && Disjoint(xs) && 0 < n < |xs|
    ensures xs[n - 1].s < xs[n - 1].e <= xs[n].s < xs[n].e
  {
  }

  // Two neighbouring trimmed entities lie in one output exactly when they are of
  // one kind and the text between them is one space or, for an address, one or two
  // characters that are each a space or a comma.
  lemma FusedTogether(xs: seq<Span>, text: string, alpha: char -> bool, i: nat)
    requires InBounds(xs, text) && Disjoint(xs) && 0 < i < |Trimmed(xs, |xs|, text, alpha)|
    ensures var ts, r := Trimmed(xs, |xs|, text, alpha), Fused(xs, text, alpha);
            Together(r, ts[i - 1], ts[i]) <==> Near(ts[i - 1], ts[i], text)
  {
    hide Trimmed, Merged, Stable, Together, Near, IsHead;
    TrimmedShape(xs, |xs|, text, alpha);
    var ts := Trimmed(xs, |xs|, text, alpha);
    MergedTogether(ts, |ts|, text, i);
    NearExact(ts, text, i);
  }

  // The trimmed entities are what the cut leaves of each input, where it leaves any.
  lemma {:induction false} TrimmedHolds(xs: seq<Span>, n: nat, text: string, alpha: char -> bool, x: Span)
    requires InBounds(xs, text) && n <= |xs|
    ensures x in Trimmed(xs, n, text, alpha)
            <==> x.s < x.e && exists i :: 0 <= i < n && x == Cut(xs[i], text, alpha)
  {
    hide Cut;
    if n > 0 {
      TrimmedHolds(xs, n - 1, text, alpha, x);
    }
  }

  // ---- What is cut off ----

  // Known abbreviations, in any case, alone or after a space.
  ghost predicate EndsKnown(w: string) {
    exists i :: 0 <= i <= |w| && (i == 0 || w[i - 1] == ' ')
                && Lower(w[i..]) in {
                     "dott.", "ing.", "avv.", "geom.", "prof.", "arch.", "rag.",
                     "sig.", "sigg.", "spett.", "ecc.", "ecc.."
                   }
  }

  // An upper-case letter at h, then dot and letter in turn, up to the final period.
  predicate InitialsFrom(w: string, h: nat) {
    && h + 4 <= |w| && 'A' <= w[h] <= 'Z' && w[h + 1] == '.' && w[|w| - 1] == '.'
    && forall i :: h < i < |w| - 1 ==>
         (w[i] == '.' && IsLetter(w[i + 1])) || (IsLetter(w[i]) && w[i + 1] == '.')
  }

  predicate IsLetter(c: char) { 'a' <= c <= 'z' || 'A' <= c <= 'Z' }

  ghost predicate EndsInInitials(w: string) { exists h: nat :: InitialsFrom(w, h) }

  lemma KnownExact(w: string)
    ensures Known(w) <==> EndsKnown(w)
  {
    if EndsKnown(w) {
      var i :| 0 <= i <= |w| && (i == 0 || w[i - 1] == ' ') && Lower(w[i..]) in ABBREVS;
      AbbrevShape(w[i..]);
      LastWordUnique(w, i);
    }
  }

  lemma {:induction false} DottedInitials(w: string, n: nat)
    requires n < |w| && w[n] == '.' && Dotted(w, n)
    ensures EndsInInitials(w[..n + 1])
    decreases n
  {
    var u := w[..n + 1];
    if Upper(w[n - 3]) {
      assert InitialsFrom(u, n - 3);
    } else {
      DottedInitials(w, n - 2);
      var v := w[..n - 1];
      var h: nat :| InitialsFrom(v, h);
      assert forall i :: 0 <= i < |v| ==> v[i] == w[i] == u[i];
      assert InitialsFrom(u, h);
    }
  }

  lemma {:induction false} InitialsDotted(w: string, n: nat, h: nat)
    requires n < |w| && InitialsFrom(w[..n + 1], h)
    ensures Dotted(w, n)
    decreases n
  {
    var u := w[..n + 1];
    assert u[n] == w[n] && u[n - 1] == w[n - 1] && u[n - 2] == w[n - 2];
    if h < n - 3 {
      var v := w[..n - 1];
      assert u[n - 2] == '.' && IsLetter(u[n - 3]);
      forall i | h < i < |v| - 1 ensures (v[i] == '.' && IsLetter(v[i + 1])) || (IsLetter(v[i]) && v[i + 1] == '.') {
        assert v[i] == u[i] && v[i + 1] == u[i + 1];
      }
      assert InitialsFrom(v, h);
      InitialsDotted(w, n - 2, h);
    }
  }

  lemma AbbreviatedExact(w: string)
    requires w != [] && w[|w| - 1] == '.'
    ensures Abbreviated(w) <==> EndsKnown(w) || EndsInInitials(w)
  {
    KnownExact(w);
    assert w[..|w|] == w;
    if Dotted(w, |w| - 1) {
      DottedInitials(w, |w| - 1);
    }
    if h: nat :| InitialsFrom(w, h) {
      InitialsDotted(w, |w| - 1, h);
    }
  }

  // A letter, an apostrophe and an s.
  predicate Possessive(w: string, alpha: char -> bool) {
    var n := |w|;
    n >= 3 && w[n - 1] == 's' && (w[n - 2] == '\'' || w[n - 2] == '\U{2019}') && alpha(w[n - 3])
  }

  // The last character of an entity that keeps it.
  ghost predicate TailStays(w: string, alpha: char -> bool)
    requires w != []
  {
    var c := w[|w| - 1];
    && c !in {',', ':', ';', ']', '}', '>', '?', '!', '"', '\U{2014}', '\U{2013}'}
    && (c == '.' ==> EndsKnown(w) || EndsInInitials(w))
    && (c == ')' ==> '(' in w)
    && (c == '\'' || c == '\U{2019}' ==> |w| >= 2 && alpha(w[|w| - 2]))
    && !Possessive(w, alpha)
  }

  lemma TailExact(text: string, s: nat, e: nat, alpha: char -> bool)
    requires s < e <= |text|
    ensures var w := text[s..e];
            DropsTail(text, s, e, alpha) == if TailStays(w, alpha) then 0 else if Possessive(w, alpha) then 2 else 1
  {
    hide EndsKnown, EndsInInitials, Abbreviated, Dotted, Known;
    var w := text[s..e];
    var n := |w|;
    assert w[n - 1] == text[e - 1];
    if text[e - 1] == ')' { ParenBefore(text, s, e); }
    assert n >= 2 ==> w[n - 2] == text[e - 2];
    assert n >= 3 ==> w[n - 3] == text[e - 3];
    if text[e - 1] == '.' {
      AbbreviatedExact(w);
    }
  }

  lemma ParenBefore(text: string, s: nat, e: nat)
    requires s < e <= |text| && text[e - 1] == ')'
    ensures '(' in text[s..e - 1] <==> '(' in text[s..e]
  {
    assert text[s..e] == text[s..e - 1] + [')'];
  }

  // A first character that does not stay: a bracket, or a quote or parenthesis that
  // nothing precedes but the start of the text or white space.
  predicate HeadGoes(text: string, i: nat)
    requires i < |text|
  {
    var c := text[i];
    || c == '[' || c == '{' || c == '<'
    || ((c == '"' || c == '(') && (i == 0 || text[i - 1] == ' ' || text[i - 1] == '\n' || text[i - 1] == '\t'))
  }

  // The cut, one character at a time: from the left while the first one goes, then
  // from the right while the last one does not stay, a possessive ending at once.
  lemma TrimExact(text: string, s: nat, e: nat, alpha: char -> bool)
    requires e <= |text|
    ensures TrimStart(text, s, e) == if s < e && HeadGoes(text, s) then TrimStart(text, s + 1, e) else s
    ensures TrimEnd(text, s, e, alpha)
            == if s >= e || TailStays(text[s..e], alpha) then e
               else TrimEnd(text, s, if Possessive(text[s..e], alpha) then e - 2 else e - 1, alpha)
  {
    hide DropsTail;
    if s < e {
      TailExact(text, s, e, alpha);
      hide TailStays, Possessive;
    }
  }
}
