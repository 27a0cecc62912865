// Whole runs that show what goes wrong, a second call that overwrites the token of
// the first and a line break that comes back as a space; and exactly when calls
// that share a request but no carry-over map are safe.
module Collisions {
  import opened Wrappers
  import opened VaultStore
  import opened VaultProtocol
  import opened VaultProgress
  import opened VaultCalls
  import opened TokenFormat
  import opened CollisionTracker
  import opened TextPipeline
  import opened RequestRun
  import opened Rehash
  import opened CallProgress
  import opened Separate
  import SpanFusion

  // ---- A text that is one span ----

  // x covers the whole text.
  ghost predicate Whole(text: string, x: SpanFusion.Span) {
    SpanFusion.Valid(x) && x.start == 0 && x.end == |text|
  }

  lemma WholeFits(text: string, x: SpanFusion.Span)
    requires Whole(text, x)
    ensures Fits(text, [x])
  {
  }

  lemma OneToken(text: string, x: SpanFusion.Span, h: string, plain: map<string, string>)
    requires Whole(text, x) && x.piiType in VALID_TYPES && IsBaseHash(h) && h in plain
    ensures (WholeFits(text, x); Rehydrated(TokenizedText(text, [x], [Minted(x, h)]), plain) == plain[h])
    ensures (WholeFits(text, x); Normalised(text, [x]) == x.text)
  {
    WholeFits(text, x);
    CandidatesAreHashes(h, 1);
    FormatParses(x.piiType, h);
    hide ParseToken, Rehydrated, IsHash;
    var tok := Minted(x, h).token;
    WholeSplice(text, x, tok);
    WholeSplice(text, x, x.text);
    RehydrateAround("", tok, "", plain) by { EmptyInert(plain); }
    EmptyInert(plain);
    assert "" + (tok + "") == tok && "" + (plain[h] + "") == plain[h];
    assert Tokens([Minted(x, h)]) == [tok] && Texts([x]) == [x.text];
  }

  lemma EmptyInert(plain: map<string, string>)
    ensures Inert("", plain) && Rehydrated("", plain) == ""
  {
  }

  lemma WholeSplice(text: string, x: SpanFusion.Span, put: string)
    requires Whole(text, x)
    ensures (WholeFits(text, x); SpliceSpans(text, [x], [put]) == put)
  {
    WholeFits(text, x);
    var edits := SpanEdits([x], [put]);
    SpanEditsInOrder(text, [x], [put]);
    assert edits == [Edit(0, |text|, put)] && edits[1..] == [];
    assert Splice(text, 0, edits) == text[0..0] + (put + text[|text|..]);
  }

  // A call on the one span x, with an empty tracker.
  function CallWith(req: string, w: Wrapped, ttl: nat, x: SpanFusion.Span, h: string): Call {
    Call(req, w, ttl, map[], [x], [h], Assigned([Minted(x, h)], map[h := x.text], map[x.text := Minted(x, h)]))
  }

  lemma AssignWith(x: SpanFusion.Span, h: string)
    requires x.piiType in VALID_TYPES && IsBaseHash(h)
    ensures Assign(map[], [x], [h])
         == Some(Assigned([Minted(x, h)], map[h := x.text], map[x.text := Minted(x, h)]))
  {
    LastSpan(Assigned([], map[], map[]), [x], [h]);
    CandidatesAreHashes(h, 1);
    hide IsHash, AssignRest;
    assert Pick(map[], h, x.text, 1) == Some(h);
    assert [] + [Minted(x, h)] == [Minted(x, h)];
    assert (map[])[h := x.text] == map[h := x.text];
  }

  // A call on one span, left alone.
  lemma OneAlone(s: State, i: nat, req: string, ttl: nat, x: SpanFusion.Span, h: string) returns (s': State)
    requires s.db.dek.Some? && i !in s.clients && 0 < ttl && x.piiType in VALID_TYPES && IsBaseHash(h)
    ensures Reaches(s, s', CallSteps(i, req, ttl, map[], [x], [h]))
    ensures var call := CallWith(req, s.db.dek.value, ttl, x, h); Far(s, s', i, Tokenized(call), call)
  {
    AssignWith(x, h);
    hide Reaches, CallSteps, Far, Assign;
    s' := CallAlone(s, i, req, ttl, map[], [x], [h]);
  }

  // What the first token holds after the second call.
  lemma FirstToken(s: State, s1: State, s2: State, i: nat, j: nat, a: Call, b: Call, v: SpanFusion.Span, h: string,
                   x: SpanFusion.Span, g: string)
    requires a == CallWith(a.req, a.w, a.ttl, v, h) && b == CallWith(a.req, b.w, b.ttl, x, g)
    requires Far(s, s1, i, Tokenized(a), a) && Far(s1, s2, j, Tokenized(b), b)
    ensures h in Lookup(s.org, s2.db, a.req)
    ensures Lookup(s.org, s2.db, a.req)[h] == if h == g then x.text else v.text
  {
    hide Lookup, Read;
    if h == g {
      assert Minted(x, g) in b.a.entries;
      TokenResolves(s1, s2, j, b, Minted(x, g));
    } else {
      assert Minted(v, h) in a.a.entries;
      var k := Key(a.req, h);
      assert !OwnKey(a.req, b.a.entries, k);
      FirstStays(s.org, s1.db, s2.db, a.req, k);
      TokenResolves(s, s1, i, a, Minted(v, h));
    }
  }

  lemma FirstStays(org: string, db: Db, db': Db, req: string, k: Key)
    requires k in db.tokens && k in db'.tokens && db'.tokens[k] == db.tokens[k] && db'.dek == db.dek && k.req == req
    ensures k.hash in Lookup(org, db, req) <==> k.hash in Lookup(org, db', req)
    ensures k.hash in Lookup(org, db, req) ==> Lookup(org, db', req)[k.hash] == Lookup(org, db, req)[k.hash]
  {
  }

  // Two undisturbed calls on one request that share no carry-over map, on one value
  // each: the first text comes back if and only if the hashes differ or the values
  // agree; with one hash the second store overwrites the first.
  lemma SecondCallOverwrites(s: State, i: nat, j: nat, req: string, ttl: nat, v: SpanFusion.Span, h: string,
                             x: SpanFusion.Span, g: string) returns (s': State)
    requires s.db.dek.Some? && i !in s.clients && j !in s.clients && i != j && 0 < ttl
    requires v.piiType in VALID_TYPES && x.piiType in VALID_TYPES && IsBaseHash(h) && IsBaseHash(g)
    requires Whole(v.text, v)
    ensures Reaches(s, s', CallSteps(i, req, ttl, map[], [v], [h]) + CallSteps(j, req, ttl, map[], [x], [g]))
    ensures var w := s.db.dek.value;
            && s'.org == s.org
            && i in s'.clients && s'.clients[i] == Tokenized(CallWith(req, w, ttl, v, h))
            && j in s'.clients && s'.clients[j] == Tokenized(CallWith(req, w, ttl, x, g))
    ensures (WholeFits(v.text, v);
             var back := Rehydrated(TokenizedText(v.text, [v], [Minted(v, h)]), Lookup(s.org, s'.db, req));
             && (back == Normalised(v.text, [v]) <==> h != g || v.text == x.text)
             && (h == g ==> back == x.text))
  {
    var w := s.db.dek.value;
    var a, b := CallSteps(i, req, ttl, map[], [v], [h]), CallSteps(j, req, ttl, map[], [x], [g]);
    hide Reaches, CallSteps, Rehydrated, Lookup, Normalised, TokenizedText, StoredBy;
    var s1 := OneAlone(s, i, req, ttl, v, h);
    assert s1.db.dek == s.db.dek by { SameDek(s, s1, i, CallWith(req, w, ttl, v, h)); }
    s' := OneAlone(s1, j, req, ttl, x, g);
    ReachesWider(s, s1, a, a + b);
    ReachesWider(s1, s', b, a + b);
    ReachesOn(s, s1, s', a + b);
    FirstToken(s, s1, s', i, j, CallWith(req, w, ttl, v, h), CallWith(req, w, ttl, x, g), v, h, x, g);
    OneToken(v.text, v, h, Lookup(s.org, s'.db, req));
  }

  lemma SameDek(s: State, s': State, i: nat, call: Call)
    requires Far(s, s', i, Tokenized(call), call)
    ensures s'.db.dek == s.db.dek
  {
  }

  // A call on a text that is one span, left alone, and its rehydration.
  lemma WholeAlone(s: State, i: nat, req: string, ttl: nat, text: string, x: SpanFusion.Span, h: string)
    returns (s': State)
    requires s.db.dek.Some? && i !in s.clients && 0 < ttl && x.piiType in VALID_TYPES && IsBaseHash(h) && Whole(text, x)
    ensures Reaches(s, s', Own(i)) && i in s'.clients
    ensures s'.clients[i] == Tokenized(CallWith(req, s.db.dek.value, ttl, x, h))
    ensures (WholeFits(text, x);
             Rehydrated(TokenizedText(text, [x], [Minted(x, h)]), Lookup(s.org, s'.db, req)) == x.text)
  {
    s' := OneAlone(s, i, req, ttl, x, h);
    ReachesWider(s, s', CallSteps(i, req, ttl, map[], [x], [h]), Own(i));
    hide Reaches, Rehydrated, Lookup, TokenizedText, Normalised, Read;
    var call := CallWith(req, s.db.dek.value, ttl, x, h);
    assert Minted(x, h) in call.a.entries;
    TokenResolves(s, s', i, call, Minted(x, h));
    OneToken(text, x, h, Lookup(s.org, s'.db, req));
  }

  // ---- A line break that fusion turns into a space ----

  const LINES := "ab\ncd"
  const NAMES := [
    SpanFusion.Span(0, 2, "ab", "pe", SpanFusion.Slm, 1.0),
    SpanFusion.Span(3, 5, "cd", "pe", SpanFusion.Slm, 1.0)]
  const JOINED := SpanFusion.Span(0, 5, "ab cd", "pe", SpanFusion.Slm, 1.0)

  lemma NamesFit()
    ensures SpanFusion.AllValid(NAMES) && SpanFusion.AllSlices(LINES, NAMES) && Whole(LINES, JOINED)
  {
    assert LINES[0..2] == "ab" && LINES[3..5] == "cd";
  }

  lemma NamesBridge()
    ensures !SpanFusion.SpacesBridged(LINES, NAMES)
  {
    assert SpanFusion.Bridge(NAMES[0], NAMES[1]) && LINES[NAMES[0].end] == '\n';
  }

  lemma NamesJoin()
    ensures SpanFusion.Merge(NAMES) == [JOINED]
  {
    MergeTwo(NAMES[0], NAMES[1]);
    assert [NAMES[0], NAMES[1]] == NAMES;
    assert "ab" + " " + "cd" == "ab cd";
    assert (1.0 + 1.0) / 2.0 == 1.0;
  }

  lemma MergeTwo(a: SpanFusion.Span, b: SpanFusion.Span)
    requires SpanFusion.Joinable(a, b)
    ensures SpanFusion.Merge([a, b]) == [SpanFusion.Fused(a, b)]
  {
    hide SpanFusion.Fused;
    var f := SpanFusion.Fused(a, b);
    assert [a, b][1..] == [b] && [b][1..] == [];
    assert SpanFusion.Extend([a], b) == [f];
    assert SpanFusion.MergeFrom([f], []) == [f];
    assert SpanFusion.MergeFrom([a], [b]) == [f];
    assert SpanFusion.Extend([], a) == [a];
  }

  lemma NamesFuse()
    ensures SpanFusion.Fuse(NAMES) == [JOINED]
    ensures !SpanFusion.SpacesBridged(LINES, SpanFusion.Resolve(SpanFusion.Sort(NAMES)))
  {
    NamesFit();
    SpanFusion.DisjointStays(NAMES);
    NamesBridge();
    NamesJoin();
    hide SpanFusion.MergeFrom, SpanFusion.ResolveFrom, SpanFusion.Sort, SpanFusion.SpacesBridged;
  }

  // Two names on two lines are fused into one span, and come back on one line.
  lemma LineBreakLost(s: State, i: nat, req: string, ttl: nat, h: string) returns (s': State)
    requires s.db.dek.Some? && i !in s.clients && 0 < ttl && IsBaseHash(h)
    ensures SpanFusion.AllValid(NAMES) && SpanFusion.AllSlices(LINES, NAMES)
    ensures !SpanFusion.SpacesBridged(LINES, SpanFusion.Resolve(SpanFusion.Sort(NAMES)))
    ensures Reaches(s, s', Own(i)) && i in s'.clients && s'.clients[i].Tokenized?
    ensures var call := s'.clients[i].call;
            && call.req == req && call.spans == SpanFusion.Fuse(NAMES) && Fits(LINES, call.spans)
            && |call.a.entries| == |call.spans|
            && Rehydrated(TokenizedText(LINES, call.spans, call.a.entries), Lookup(s.org, s'.db, req))
               == "ab cd" != LINES
  {
    NamesFit();
    NamesFuse();
    WholeFits(LINES, JOINED);
    hide Reaches, Rehydrated, Lookup, TokenizedText, SpanFusion.Fuse, SpanFusion.SpacesBridged, SpanFusion.Resolve,
      SpanFusion.AllValid, SpanFusion.AllSlices, Fits, Whole, Minted;
    s' := WholeAlone(s, i, req, ttl, LINES, JOINED, h);
    assert LINES[2] != "ab cd"[2];
  }

  // ---- Separate calls are safe exactly under an injective HMAC ----

  // Calls with empty trackers on values of the set, and DEK creation; no flush,
  // no rotation, and no time passes.
  ghost function PlainSteps(vals: iset<string>, hmac: string -> string): iset<Step> {
    iset step: Step |
      || (step.Spawn? && (step.m == GetOrCreate || (step.m.Tokenize? && step.m.seed == map[])))
      || (step.Act? && (step.m.Detected? ==> step.m.span.text in vals && step.m.base == hmac(step.m.span.text)))
  }

  lemma {:induction false} PlainUsesHmac(s: State, steps: seq<Step>, req: string, vals: iset<string>,
                                         hmac: string -> string)
    requires Among(steps, PlainSteps(vals, hmac))
    ensures RunUsesHmac(s, steps, req, vals, hmac)
    decreases |steps|
  {
    hide Next;
    if steps != [] {
      assert steps[0] in PlainSteps(vals, hmac);
      if Next(s, steps[0]).Some? {
        PlainUsesHmac(Next(s, steps[0]).value, steps[1..], req, vals, hmac);
      }
    }
  }

  // Nothing is dropped along such a run.
  ghost predicate NoDrops(s: State) {
    && (forall i :: i in s.clients ==> !s.clients[i].Unlinking?)
    && (forall n :: 0 <= n < |s.log| ==> !s.log[n].Drop?)
  }

  lemma ActDrops(org: string, db: Db, supply: nat, c: Client, m: Move)
    requires !c.Unlinking? && ClientStep(org, db, supply, c, m).Some?
    ensures var e := ClientStep(org, db, supply, c, m).value;
            !e.client.Unlinking? && forall n :: 0 <= n < |e.log| ==> !e.log[n].Drop?
  {
    hide Take, StoreTx, RegisterTx, CommitTx, DropSetTx, Prepared;
  }

  lemma SpawnDrops(db: Db, supply: nat, m: Move)
    requires (m == GetOrCreate || m.Tokenize?) && SpawnStep(db, supply, m).Some?
    ensures !SpawnStep(db, supply, m).value.client.Unlinking? && SpawnStep(db, supply, m).value.log == []
  {
  }

  lemma NotifyDrops(c: Client, t: Touched)
    ensures Notify(c, t).Unlinking? <==> c.Unlinking?
  {
  }

  lemma StepDrops(s: State, step: Step, vals: iset<string>, hmac: string -> string)
    requires NoDrops(s) && step in PlainSteps(vals, hmac) && Next(s, step).Some?
    ensures NoDrops(Next(s, step).value)
  {
    var e;
    if step.Spawn? {
      SpawnDrops(s.db, s.supply, step.m);
      e := SpawnStep(s.db, s.supply, step.m).value;
    } else {
      ActDrops(s.org, s.db, s.supply, s.clients[step.i], step.m);
      e := ClientStep(s.org, s.db, s.supply, s.clients[step.i], step.m).value;
    }
    hide ClientStep, SpawnStep, Notify;
    var s' := Next(s, step).value;
    forall j | j in s'.clients ensures !s'.clients[j].Unlinking? {
      if j in s.clients { NotifyDrops(s.clients[j], e.touched); }
    }
  }

  lemma {:induction false} RunDrops(s: State, steps: seq<Step>, vals: iset<string>, hmac: string -> string)
    requires NoDrops(s) && Among(steps, PlainSteps(vals, hmac)) && Run(s, steps).Some?
    ensures NoDrops(Run(s, steps).value)
    decreases |steps|
  {
    hide NoDrops, Next, PlainSteps;
    if steps != [] {
      StepDrops(s, steps[0], vals, hmac);
      RunDrops(Next(s, steps[0]).value, steps[1..], vals, hmac);
    }
  }

  // A client that is left alone creates the first DEK.
  lemma DekFirst(s: State, i: nat, ok: iset<Step>) returns (s': State)
    requires s.db.dek.None? && i !in s.clients && Spawn(i, GetOrCreate) in ok && Act(i, Command) in ok
    ensures Reaches(s, s', ok) && s'.db.dek.Some? && s'.clients.Keys == s.clients.Keys + {i} && s'.org == s.org
  {
    var cand, top := Wrapped(s.supply, s.supply + 1), s.supply + 2;
    var first := Creating(cand, 0, Unwatched);
    CreatorStarts(s, i, ok);
    CreatorCommands(s.org, s.db, top, cand);
    hide Reaches, ClientStep;
    Go(s, i, top, first, Command, top, first.(watch := Watched(false)), ok);
    Go(s, i, top, first.(watch := Watched(false)), Command, top, first.(watch := Checked(false)), ok);
    var last := Moved(s, i, top, first.(watch := Checked(false)));
    var e := Effect(s.db.(dek := Some(cand)), top, HasDek(cand.dek), Touched(true, false, None, {}), []);
    s' := Do(s, last, i, Command, e, ok);
  }

  lemma CreatorStarts(s: State, i: nat, ok: iset<Step>)
    requires s.db.dek.None? && i !in s.clients && Spawn(i, GetOrCreate) in ok
    ensures Reaches(s, Moved(s, i, s.supply + 2, Creating(Wrapped(s.supply, s.supply + 1), 0, Unwatched)), ok)
  {
    QuietApply(s, i, s.supply + 2, Creating(Wrapped(s.supply, s.supply + 1), 0, Unwatched));
    ReachesSelf(s, ok);
    hide Reaches;
    ReachesThen(s, s, Spawn(i, GetOrCreate), ok);
  }

  lemma CreatorCommands(org: string, db: Db, supply: nat, cand: Wrapped)
    requires db.dek.None?
    ensures var c := Creating(cand, 0, Unwatched);
            && ClientStep(org, db, supply, c, Command) == Quietly(db, supply, c.(watch := Watched(false)))
            && ClientStep(org, db, supply, c.(watch := Watched(false)), Command)
               == Quietly(db, supply, c.(watch := Checked(false)))
            && ClientStep(org, db, supply, c.(watch := Checked(false)), Command)
               == Some(Effect(db.(dek := Some(cand)), supply, HasDek(cand.dek), Touched(true, false, None, {}), []))
  {
  }

  // Every returned call of a request whose calls tokenise values of the set under
  // this HMAC, in any run, rehydrates.
  ghost predicate SafeSeparately(org: string, vals: iset<string>, hmac: string -> string) {
    forall steps, s, i, text :: SafeRun(org, steps, s, i, text, vals, hmac)
  }

  ghost predicate SafeRun(org: string, steps: seq<Step>, s: State, i: nat, text: string, vals: iset<string>,
                          hmac: string -> string)
  {
    Run(Init(org), steps) == Some(s) && Returned(org, s, i, text)
    && RunUsesHmac(Init(org), steps, s.clients[i].call.req, vals, hmac)
    ==> Rehydrates(org, s, i, text, Normalised(text, s.clients[i].call.spans))
  }

  function SpanOf(v: string): SpanFusion.Span {
    SpanFusion.Span(0, |v|, v, "pe", SpanFusion.Regex, 1.0)
  }

  // Two values with one HMAC: two calls, and the first text does not come back.
  lemma Collide(org: string, vals: iset<string>, hmac: string -> string, v: string, x: string)
    requires v in vals && x in vals && v != x && v != "" && hmac(v) == hmac(x) && IsBaseHash(hmac(v))
    ensures !SafeSeparately(org, vals, hmac)
  {
    var ok, h, a, b := PlainSteps(vals, hmac), hmac(v), SpanOf(v), SpanOf(x);
    var s0 := DekFirst(Init(org), 0, ok);
    var s := SecondCallOverwrites(s0, 1, 2, "r", 1, a, h, b, h);
    PlainCalls(vals, hmac, 1, a);
    PlainCalls(vals, hmac, 2, b);
    ReachesWider(s0, s, CallSteps(1, "r", 1, map[], [a], [h]) + CallSteps(2, "r", 1, map[], [b], [h]), ok);
    ReachesOn(Init(org), s0, s, ok);
    var steps :| Run(Init(org), steps) == Some(s) && Among(steps, ok);
    hide Run, Reaches, CallSteps, PlainSteps, Rehydrated, Lookup, TokenizedText, Normalised, Among, SafeSeparately;
    PlainUsesHmac(Init(org), steps, "r", vals, hmac);
    RunDrops(Init(org), steps, vals, hmac);
    WholeReturned(org, s, 1, s0.db.dek.value, a, h);
    WholeFits(v, a);
    assert !SafeRun(org, steps, s, 1, v, vals, hmac);
    NotSafe(org, steps, s, 1, v, vals, hmac);
  }

  lemma NotSafe(org: string, steps: seq<Step>, s: State, i: nat, text: string, vals: iset<string>,
                hmac: string -> string)
    requires !SafeRun(org, steps, s, i, text, vals, hmac)
    ensures !SafeSeparately(org, vals, hmac)
  {
    hide SafeRun;
  }

  lemma PlainCalls(vals: iset<string>, hmac: string -> string, i: nat, x: SpanFusion.Span)
    requires x.text in vals
    ensures CallSteps(i, "r", 1, map[], [x], [hmac(x.text)]) <= PlainSteps(vals, hmac)
  {
  }

  lemma WholeReturned(org: string, s: State, i: nat, w: Wrapped, x: SpanFusion.Span, h: string)
    requires NoDrops(s) && Whole(x.text, x) && i in s.clients && s.clients[i] == Tokenized(CallWith("r", w, 1, x, h))
    ensures Returned(org, s, i, x.text)
  {
    WholeFits(x.text, x);
    var plain := Lookup(org, s.db, "r");
    EmptyInert(plain);
    var edits := SpanEdits([x], Texts([x]));
    SpanEditsInOrder(x.text, [x], Texts([x]));
    assert edits[1..] == [] && x.text[0..0] == "" && x.text[|x.text|..] == "";
    hide Lookup;
    assert KeptInert(x.text, 0, edits, plain);
  }

  // Calls that share a request but no carry-over map are safe, whatever runs, if
  // and only if the HMAC keeps apart the values that are tokenised.
  lemma SafeIffInjective(org: string, vals: iset<string>, hmac: string -> string)
    requires forall v :: v in vals ==> IsBaseHash(hmac(v))
    ensures SafeSeparately(org, vals, hmac) <==> Injective(vals, hmac)
  {
    hide SafeSeparately, IsBaseHash;
    if Injective(vals, hmac) {
      AllSafe(org, vals, hmac);
    } else {
      var v, x :| v in vals && x in vals && hmac(v) == hmac(x) && v != x;
      if v != "" { Collide(org, vals, hmac, v, x); } else { Collide(org, vals, hmac, x, v); }
    }
  }

  lemma AllSafe(org: string, vals: iset<string>, hmac: string -> string)
    requires Injective(vals, hmac)
    ensures SafeSeparately(org, vals, hmac)
  {
    hide Injective, Run, Returned, RunUsesHmac, Rehydrates;
    forall steps, s, i, text ensures SafeRun(org, steps, s, i, text, vals, hmac) {
      OneSafe(org, steps, s, i, text, vals, hmac);
    }
  }

  lemma OneSafe(org: string, steps: seq<Step>, s: State, i: nat, text: string, vals: iset<string>,
                hmac: string -> string)
    requires Injective(vals, hmac)
    ensures SafeRun(org, steps, s, i, text, vals, hmac)
  {
    hide Injective, Run, RunUsesHmac, Rehydrated, TokenizedText, Quiet, Lookup, Normalised, Fits, Kept;
    if Run(Init(org), steps) == Some(s) && Returned(org, s, i, text)
       && RunUsesHmac(Init(org), steps, s.clients[i].call.req, vals, hmac)
    {
      SeparateCallsRehydrate(org, steps, s, i, text, vals, hmac);
    }
  }
}
