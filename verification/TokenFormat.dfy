// The token grammar [#type:hash], its parser and printer, and the left-to-right
// scanner that finds every token in a text.
module TokenFormat {
  import opened Wrappers

  predicate IsLower(c: char) { 'a' <= c <= 'z' }
  predicate IsHex(c: char) { 'a' <= c <= 'f' || '0' <= c <= '9' }

  // \d in a text pattern is any decimal digit: ten consecutive code points from
  // each of these zeros (Unicode 14, general category Nd).
  const DIGIT_ZEROS := [
    0x660, 0x6F0, 0x7C0, 0x966, 0x9E6, 0xA66, 0xAE6, 0xB66, 0xBE6, 0xC66, 0xCE6, 0xD66, 0xDE6, 0xE50, 0xED0,
    0xF20, 0x1040, 0x1090, 0x17E0, 0x1810, 0x1946, 0x19D0, 0x1A80, 0x1A90, 0x1B50, 0x1BB0, 0x1C40, 0x1C50,
    0xA620, 0xA8D0, 0xA900, 0xA9D0, 0xA9F0, 0xAA50, 0xABF0, 0xFF10, 0x104A0, 0x10D30, 0x11066, 0x110F0,
    0x11136, 0x111D0, 0x112F0, 0x11450, 0x114D0, 0x11650, 0x116C0, 0x11730, 0x118E0, 0x11950, 0x11C50,
    0x11D50, 0x11DA0, 0x16A60, 0x16AC0, 0x16B50, 0x1D7CE, 0x1D7D8, 0x1D7E2, 0x1D7EC, 0x1D7F6, 0x1E140,
    0x1E2F0, 0x1E950, 0x1FBF0]

  predicate IsDigit(c: char) {
    '0' <= c <= '9' || (c as int >= 0x660 && exists z :: z in DIGIT_ZEROS && z <= c as int < z + 10)
  }

  const VALID_TYPES := {
    "pe", "org", "loc", "ind", "tel", "em", "cf", "ib", "med", "leg", "rel", "fin", "pro", "dt"}

  // [a-z]{2,3}
  predicate IsTypeCode(t: string) {
    2 <= |t| <= 3 && forall i :: 0 <= i < |t| ==> IsLower(t[i])
  }

  // [a-f0-9]{4,8}(?:_\d+)?  with n hex characters
  predicate HashWith(h: string, n: nat) {
    && 4 <= n <= 8 && n <= |h|
    && (forall i :: 0 <= i < n ==> IsHex(h[i]))
    && (n == |h| || (h[n] == '_' && n + 1 < |h| && forall i :: n < i < |h| ==> IsDigit(h[i])))
  }

  predicate IsHash(h: string) {
    exists n :: 4 <= n <= 8 && HashWith(h, n)
  }

  // What the pattern stands for.
  function Spell(t: string, h: string): string {
    "[#" + t + ":" + h + "]"
  }

  ghost predicate Denotes(s: string, t: string, h: string) {
    IsTypeCode(t) && IsHash(h) && s == Spell(t, h)
  }

  // TOKEN_PATTERN.fullmatch: the two groups, if the whole string matches.
  function Groups(s: string): Option<(string, string)> {
    if |s| < 10 || s[0] != '[' || s[1] != '#' || s[|s| - 1] != ']' then None
    else
      var n := if s[4] == ':' then 2 else 3;
      var t, h := s[2..2 + n], s[3 + n..|s| - 1];
      if s[2 + n] == ':' && IsTypeCode(t) && IsHash(h) then Some((t, h)) else None
  }

  lemma GroupsSpelled(s: string, t: string, h: string)
    requires Groups(s) == Some((t, h))
    ensures s == Spell(t, h) && IsTypeCode(t) && IsHash(h)
  {
    hide IsHash, IsTypeCode;
    var n := |t|;
    assert s == s[..2] + s[2..2 + n] + [s[2 + n]] + s[3 + n..|s| - 1] + [s[|s| - 1]];
    assert s[..2] == "[#";
  }

  lemma GroupsExact(s: string, t: string, h: string)
    ensures Groups(s) == Some((t, h)) <==> Denotes(s, t, h)
  {
    if Groups(s) == Some((t, h)) {
      GroupsSpelled(s, t, h);
    }
    if Denotes(s, t, h) {
      var n := |t|;
      assert s[2..2 + n] == t && s[3 + n..|s| - 1] == h && s[2 + n] == ':';
      assert n == 3 ==> IsLower(t[2]) && s[4] == t[2];
    }
  }

  function FormatToken(t: string, h: string): Option<string> {
    if t in VALID_TYPES && IsHash(h) then Some(Spell(t, h)) else None
  }

  function ParseToken(s: string): Option<(string, string)> {
    match Groups(s)
    case Some((t, h)) => if t in VALID_TYPES then Some((t, h)) else None
    case None => None
  }

  function HashOf(tok: string): Option<string> {
    match ParseToken(tok) case Some((_, h)) => Some(h) case None => None
  }

  // Parsing undoes formatting, and every string that parses is what formatting prints.
  lemma ParseUndoesFormat(s: string, t: string, h: string)
    ensures FormatToken(t, h) == Some(s) <==> ParseToken(s) == Some((t, h))
  {
    GroupsExact(s, t, h);
    assert t in VALID_TYPES ==> IsTypeCode(t);
  }

  predicate MadeFrom(s: string, chars: string) {
    forall i :: 0 <= i < |s| ==> s[i] in chars
  }

  lemma LowerChars(c: char)
    ensures IsLower(c) <==> c in "abcdefghijklmnopqrstuvwxyz"
  {
  }

  lemma HexChars(c: char)
    ensures IsHex(c) <==> c in "0123456789abcdef"
  {
  }

  lemma AsciiDigits(c: char)
    requires c < '\U{0660}'
    ensures IsDigit(c) <==> c in "0123456789"
  {
  }

  // n hex characters, with nothing after them or a low line and digits.
  predicate HexThenDigits(h: string, n: nat) {
    && 4 <= n <= 8 && n <= |h| && MadeFrom(h[..n], "0123456789abcdef")
    && (n == |h| || (|h| >= n + 2 && h[n] == '_' && forall i :: n < i < |h| ==> IsDigit(h[i])))
  }

  // The characters that the pattern allows: two or three lower-case letters, and
  // four to eight hex characters with an optional suffix.
  lemma PatternExact(t: string, h: string)
    ensures IsTypeCode(t) <==> (|t| == 2 || |t| == 3) && MadeFrom(t, "abcdefghijklmnopqrstuvwxyz")
    ensures IsHash(h) <==> exists n :: 4 <= n <= 8 && HexThenDigits(h, n)
  {
    forall c ensures IsLower(c) <==> c in "abcdefghijklmnopqrstuvwxyz" { LowerChars(c); }
    forall n | 4 <= n <= 8 ensures HashWith(h, n) <==> HexThenDigits(h, n) {
      HexExact(h, n);
    }
  }

  lemma HexExact(h: string, n: nat)
    requires 4 <= n <= 8
    ensures HashWith(h, n) <==> HexThenDigits(h, n)
  {
    forall c ensures IsHex(c) <==> c in "0123456789abcdef" { HexChars(c); }
    hide IsHex, IsDigit;
    if n <= |h| {
      assert forall i :: 0 <= i < n ==> h[..n][i] == h[i];
    }
  }

  // A match opens with its only '[' and closes with its only ']'.
  lemma Brackets(s: string)
    requires Groups(s).Some?
    ensures |s| >= 10 && s[0] == '[' && s[|s| - 1] == ']'
    ensures forall i :: 0 < i < |s| ==> s[i] != '['
    ensures forall i :: 0 <= i < |s| - 1 ==> s[i] != ']'
  {
    var (t, h) := Groups(s).value;
    GroupsExact(s, t, h);
    var n :| 4 <= n <= 8 && HashWith(h, n);
    forall i | 0 <= i < |h| ensures h[i] != '[' && h[i] != ']' {
      assert i < n ==> IsHex(h[i]);
      assert i > n ==> IsDigit(h[i]);
    }
    forall i | 0 < i < |s| - 1 ensures s[i] != '[' && s[i] != ']' {
      if 2 <= i < 2 + |t| {
        assert s[i] == t[i - 2];
      } else if i >= 3 + |t| {
        assert s[i] == h[i - 3 - |t|];
      }
    }
  }

  // The first ']' of s, or |s|.
  function Close(s: string): (n: nat)
    ensures n <= |s| && (n < |s| ==> s[n] == ']')
    ensures forall i :: 0 <= i < n ==> s[i] != ']'
  {
    if s == "" || s[0] == ']' then 0 else 1 + Close(s[1..])
  }

  // TOKEN_PATTERN.match at the front of s: the length of the match.
  function MatchLen(s: string): (m: Option<nat>)
    ensures m.Some? ==> 0 < m.value <= |s|
  {
    var n := Close(s);
    if n < |s| && Groups(s[..n + 1]).Some? then Some(n + 1) else None
  }

  lemma MatchLenExact(s: string, n: nat)
    ensures MatchLen(s) == Some(n) <==> n <= |s| && Groups(s[..n]).Some?
  {
    if n <= |s| && Groups(s[..n]).Some? {
      Brackets(s[..n]);
      assert s[n - 1] == ']' && forall i :: 0 <= i < n - 1 ==> s[..n][i] == s[i];
      assert Close(s) == n - 1;
    }
  }

  // A text cut into matches and single characters, as finditer walks it. A
  // match carries its type and hash when the type is a valid one.
  datatype Piece = Plain(c: char) | Match(s: string, token: Option<(string, string)>)

  // How many characters the scanner consumes next, and as what.
  function Stride(s: string): nat {
    if MatchLen(s).Some? then MatchLen(s).value else 1
  }

  function Front(s: string): Piece
    requires s != ""
  {
    if MatchLen(s).Some? then Match(s[..MatchLen(s).value], ParseToken(s[..MatchLen(s).value])) else Plain(s[0])
  }

  function Cut(s: string): seq<Piece> {
    if s == "" then [] else [Front(s)] + Cut(s[Stride(s)..])
  }

  function Text(p: Piece): string {
    match p case Plain(c) => [c] case Match(s, _) => s
  }

  function Join(ps: seq<Piece>): string {
    if ps == [] then "" else Text(ps[0]) + Join(ps[1..])
  }

  lemma CutOn(s: string)
    ensures s == "" <==> Cut(s) == []
    ensures s != "" ==>
              && 0 < Stride(s) <= |s|
              && Text(Front(s)) == s[..Stride(s)] && Cut(s)[0] == Front(s) && Cut(s)[1..] == Cut(s[Stride(s)..])
  {
    hide MatchLen, ParseToken;
  }

  // Nothing is lost or added by cutting.
  lemma {:induction false} JoinCut(s: string)
    ensures Join(Cut(s)) == s
    decreases |s|
  {
    if s != "" {
      CutOn(s);
      JoinCut(s[Stride(s)..]);
    }
  }

  lemma MatchAround(a: string, tok: string, b: string)
    requires Groups(tok).Some?
    ensures MatchLen(a + tok + b) == if a == "" then Some(|tok|) else MatchLen(a)
  {
    var s := a + tok + b;
    Brackets(tok);
    if a == "" {
      assert s[..|tok|] == tok;
      MatchLenExact(s, |tok|);
    } else if MatchLen(s).Some? {
      var n := MatchLen(s).value;
      MatchLenExact(s, n);
      Brackets(s[..n]);
      assert s[|a|] == '[';
      if n > |a| {
        assert false;
      }
      assert s[..n] == a[..n];
      MatchLenExact(a, n);
    } else if MatchLen(a).Some? {
      var n := MatchLen(a).value;
      MatchLenExact(a, n);
      assert a[..n] == s[..n];
      MatchLenExact(s, n);
    }
  }

  // No match can straddle the edge of a token: the text before it and the text
  // after it are cut as if they stood alone.
  lemma {:induction false} CutAround(a: string, tok: string, b: string)
    requires Groups(tok).Some?
    ensures Cut(a + tok + b) == Cut(a) + [Match(tok, ParseToken(tok))] + Cut(b)
    decreases |a|
  {
    hide MatchLen, Groups, ParseToken;
    var s := a + tok + b;
    MatchAround(a, tok, b);
    if a == "" {
      assert s[..|tok|] == tok && s[|tok|..] == b;
    } else {
      var n := Stride(a);
      assert s[..n] == a[..n] && s[n..] == a[n..] + tok + b;
      CutAround(a[n..], tok, b);
      var mid := [Match(tok, ParseToken(tok))];
      assert [Cut(a)[0]] + (Cut(a[n..]) + mid + Cut(b)) == ([Cut(a)[0]] + Cut(a[n..])) + mid + Cut(b);
    }
  }

  // One result of find_all_tokens.
  datatype Found = Found(piiType: string, hash: string, start: nat, end: nat)

  // The matches with a valid type, with their offsets; the pieces start at off.
  function Hit(p: Piece, off: nat): seq<Found> {
    if p.Match? && p.token.Some?
    then [Found(p.token.value.0, p.token.value.1, off, off + |p.s|)] else []
  }

  function Locate(ps: seq<Piece>, off: nat): seq<Found> {
    if ps == [] then [] else Hit(ps[0], off) + Locate(ps[1..], off + |Text(ps[0])|)
  }

  lemma {:induction false} LocateConcat(a: seq<Piece>, b: seq<Piece>, off: nat)
    ensures Locate(a + b, off) == Locate(a, off) + Locate(b, off + |Join(a)|)
    decreases |a|
  {
    hide Text, Hit;
    if a == [] {
      assert a + b == b;
    } else {
      assert (a + b)[1..] == a[1..] + b && (a + b)[0] == a[0];
      var end := off + |Text(a[0])|;
      LocateConcat(a[1..], b, end);
      FoundAssoc(Hit(a[0], off), Locate(a[1..], end), Locate(b, off + |Join(a)|));
    }
  }

  lemma FoundAssoc(a: seq<Found>, b: seq<Found>, c: seq<Found>)
    ensures a + (b + c) == a + b + c
  {
  }

  function FindAll(s: string): seq<Found> {
    Locate(Cut(s), 0)
  }

  function Shift(fs: seq<Found>, d: nat): (r: seq<Found>)
    ensures |r| == |fs|
  {
    seq(|fs|, i requires 0 <= i < |fs| => fs[i].(start := fs[i].start + d, end := fs[i].end + d))
  }

  lemma ShiftConcat(a: seq<Found>, b: seq<Found>, d: nat)
    ensures Shift(a + b, d) == Shift(a, d) + Shift(b, d)
  {
  }

  lemma HitShift(p: Piece, off: nat, d: nat)
    ensures Hit(p, off + d) == Shift(Hit(p, off), d)
  {
  }

  lemma NothingShifts(d: nat)
    ensures Shift([], d) == []
  {
  }

  lemma {:induction false} LocateShift(ps: seq<Piece>, off: nat, d: nat)
    ensures Locate(ps, off + d) == Shift(Locate(ps, off), d)
    decreases |ps|
  {
    hide Hit, Text, Shift;
    if ps == [] {
      NothingShifts(d);
    } else {
      var end := off + |Text(ps[0])|;
      LocateShift(ps[1..], end, d);
      ShiftConcat(Hit(ps[0], off), Locate(ps[1..], end), d);
      HitShift(ps[0], off, d);
    }
  }

  // find_all_tokens on a text with a token in it: the tokens wholly before it,
  // the token itself, and the tokens wholly after it, shifted.
  lemma FindAround(a: string, t: string, h: string, b: string)
    requires FormatToken(t, h).Some?
    ensures var tok := FormatToken(t, h).value;
            FindAll(a + tok + b) ==
              FindAll(a) + [Found(t, h, |a|, |a| + |tok|)] + Shift(FindAll(b), |a| + |tok|)
  {
    hide MatchLen, Groups, IsHash, Cut, FormatToken, Locate, Shift;
    var tok := FormatToken(t, h).value;
    ParseUndoesFormat(tok, t, h);
    CutAround(a, tok, b);
    var one := [Match(tok, Some((t, h)))];
    var end := |a| + |tok|;
    assert Cut(a + tok + b) == Cut(a) + (one + Cut(b));
    LocateConcat(Cut(a), one + Cut(b), 0);
    JoinCut(a);
    LocateOne(tok, t, h, |a|, Cut(b));
    LocateShift(Cut(b), 0, end);
    FoundAssoc(FindAll(a), [Found(t, h, |a|, end)], Shift(FindAll(b), end));
  }

  lemma LocateOne(tok: string, t: string, h: string, off: nat, rest: seq<Piece>)
    ensures Locate([Match(tok, Some((t, h)))] + rest, off)
         == [Found(t, h, off, off + |tok|)] + Locate(rest, off + |tok|)
  {
    var all := [Match(tok, Some((t, h)))] + rest;
    assert all[1..] == rest;
  }

  // A token is found where it stands in the text, and nothing else is found.
  lemma FindAllExact(s: string, f: Found)
    ensures f in FindAll(s) <==>
              f.start <= f.end <= |s| && ParseToken(s[f.start..f.end]) == Some((f.piiType, f.hash))
  {
    if f.start <= f.end <= |s| && ParseToken(s[f.start..f.end]) == Some((f.piiType, f.hash)) {
      var a, tok, b := s[..f.start], s[f.start..f.end], s[f.end..];
      ParseUndoesFormat(tok, f.piiType, f.hash);
      assert s == a + tok + b;
      FindAround(a, f.piiType, f.hash, b);
      assert FindAll(s)[|FindAll(a)|] == f;
    }
    if f in FindAll(s) {
      LocateSound(s, "", f);
      assert "" + s == s;
    }
  }

  lemma {:induction false} LocateSound(s: string, before: string, f: Found)
    requires f in Locate(Cut(s), |before|)
    ensures f.start <= f.end <= |before + s|
    ensures ParseToken((before + s)[f.start..f.end]) == Some((f.piiType, f.hash))
    decreases |s|
  {
    hide MatchLen, ParseToken, Cut, Stride;
    CutOn(s);
    var n := Stride(s);
    var all := before + s;
    if f in Locate(Cut(s[n..]), |before| + n) {
      assert before + s[..n] + s[n..] == all;
      LocateSound(s[n..], before + s[..n], f);
    } else {
      assert all[|before|..|before| + n] == s[..n];
    }
  }

  lemma ScanOn(text: string, i: nat)
    requires i <= |text|
    ensures i == |text| ==> Locate(Cut(text[i..]), i) == []
    ensures i < |text| ==>
            var s := text[i..]; var n := Stride(s);
            && i + n <= |text|
            && Locate(Cut(s), i) == Hit(Front(s), i) + Locate(Cut(text[i + n..]), i + n)
  {
    hide Front, Cut, Stride;
    var s := text[i..];
    CutOn(s);
    assert i < |text| ==> s[Stride(s)..] == text[i + Stride(s)..];
  }

  // The finditer loop.
  method FindAllTokens(text: string) returns (results: seq<Found>)
    ensures results == FindAll(text)
  {
    hide MatchLen, ParseToken, Locate, Cut;
    results := [];
    var i := 0;
    assert text[0..] == text;
    while i < |text|
      invariant 0 <= i <= |text|
      invariant FindAll(text) == results + Locate(Cut(text[i..]), i)
    {
      ScanOn(text, i);
      var s := text[i..];
      var m := MatchLen(s);
      var n := Stride(s);
      ghost var hit := Hit(Front(s), i);
      assert results + (hit + Locate(Cut(text[i + n..]), i + n)) == (results + hit) + Locate(Cut(text[i + n..]), i + n);
      if m.Some? && ParseToken(s[..n]).Some? {
        var (t, h) := ParseToken(s[..n]).value;
        results := results + [Found(t, h, i, i + n)];
      } else {
        assert hit == [] && results + hit == results;
      }
      i := i + n;
    }
    ScanOn(text, i);
  }

  const DIGITS := "0123456789"

  // build_collision_hash; more than ten attempts is the source's ValueError.
  function CollisionHash(base: string, attempt: nat): (r: Option<string>)
    ensures r.None? <==> attempt > 10
  {
    if attempt > 10 then None
    else if attempt <= 1 then Some(base)
    else Some(base + "_" + if attempt == 10 then "10" else [DIGITS[attempt]])
  }

  predicate IsBaseHash(h: string) {
    |h| == 8 && forall i :: 0 <= i < 8 ==> IsHex(h[i])
  }

  // Candidates of an 8-character base are well formed, and no two attempts or
  // two bases share one.
  lemma CandidatesAreHashes(base: string, attempt: nat)
    requires IsBaseHash(base) && attempt <= 10
    ensures IsHash(CollisionHash(base, attempt).value)
  {
    assert HashWith(CollisionHash(base, attempt).value, 8);
  }

  lemma CandidatesDiffer(b: string, i: nat, b': string, j: nat)
    requires IsBaseHash(b) && IsBaseHash(b') && 1 <= i <= 10 && 1 <= j <= 10
    ensures CollisionHash(b, i) == CollisionHash(b', j) <==> b == b' && i == j
  {
    var x, y := CollisionHash(b, i).value, CollisionHash(b', j).value;
    if x == y {
      assert x[..8] == b && y[..8] == b';
      assert i > 1 ==> x[9..] == if i == 10 then "10" else [DIGITS[i]];
      assert j > 1 ==> y[9..] == if j == 10 then "10" else [DIGITS[j]];
      assert 2 <= i <= 9 ==> DIGITS[i] as int == 48 + i;
      assert 2 <= j <= 9 ==> DIGITS[j] as int == 48 + j;
    }
  }

  // The first candidate is the hash itself, the others count up from _2 to _10.
  lemma CandidateSpelling(base: string, attempt: nat)
    ensures attempt <= 1 ==> CollisionHash(base, attempt) == Some(base)
    ensures 2 <= attempt <= 10 ==>
              var suffixes := ["_2", "_3", "_4", "_5", "_6", "_7", "_8", "_9", "_10"];
              CollisionHash(base, attempt) == Some(base + suffixes[attempt - 2])
    ensures attempt > 10 ==> CollisionHash(base, attempt) == None
  {
    if 2 <= attempt <= 10 {
      var suffix := ["_2", "_3", "_4", "_5", "_6", "_7", "_8", "_9", "_10"][attempt - 2];
      assert suffix == "_" + if attempt == 10 then "10" else [DIGITS[attempt]];
      assert base + "_" + suffix[1..] == base + suffix;
    }
  }

  lemma Spelled(t: string, h: string, n: nat, s: string)
    requires t in VALID_TYPES && HashWith(h, n) && 4 <= n <= 8 && s == Spell(t, h)
    ensures FormatToken(t, h) == Some(s) && ParseToken(s) == Some((t, h))
  {
    ParseUndoesFormat(s, t, h);
    hide Groups, ParseToken;
  }

  lemma DocumentedHashes()
    ensures HashWith("a3f2c1d9", 8) && HashWith("9b1d", 4) && HashWith("c4f7ab01_2", 8)
  {
  }

  // The documented tokens print and parse.
  lemma DocumentedTokens()
    ensures FormatToken("pe", "a3f2c1d9") == Some("[#pe:a3f2c1d9]")
    ensures ParseToken("[#pe:a3f2c1d9]") == Some(("pe", "a3f2c1d9"))
    ensures FormatToken("cf", "9b1d") == Some("[#cf:9b1d]") && ParseToken("[#cf:9b1d]") == Some(("cf", "9b1d"))
    ensures FormatToken("org", "c4f7ab01_2") == Some("[#org:c4f7ab01_2]")
    ensures ParseToken("[#org:c4f7ab01_2]") == Some(("org", "c4f7ab01_2"))
  {
    hide FormatToken, ParseToken, HashWith;
    DocumentedHashes();
    Spelled("pe", "a3f2c1d9", 8, "[#pe:a3f2c1d9]");
    Spelled("cf", "9b1d", 4, "[#cf:9b1d]");
    Spelled("org", "c4f7ab01_2", 8, "[#org:c4f7ab01_2]");
  }
}
