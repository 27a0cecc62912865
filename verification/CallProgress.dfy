// A tokenise call that is left alone stores its tokens and returns.
module CallProgress {
  import opened Wrappers
  import opened VaultStore
  import opened VaultProtocol
  import opened VaultProgress
  import opened CollisionTracker
  import opened TextPipeline
  import SpanFusion

  // The steps of client i for one call on these spans.
  ghost function CallSteps(i: nat, req: string, ttl: nat, seed: map<string, string>, spans: seq<SpanFusion.Span>,
                           bases: seq<string>): iset<Step>
  {
    iset step: Step |
      || (step.Spawn? && step.i == i && step.m == Tokenize(req, ttl, seed))
      || (step.Act? && step.i == i && (step.m.Detected? ==> IsDetected(step.m, spans, bases)))
  }

  ghost predicate IsDetected(m: Move, spans: seq<SpanFusion.Span>, bases: seq<string>) {
    exists n :: 0 <= n < |spans| && n < |bases| && m == Detected(spans[n], bases[n])
  }

  // ---- What the call leaves behind ----

  ghost predicate OwnKey(req: string, entries: seq<TokenEntry>, k: Key) {
    exists e :: e in entries && k == Key(req, e.hash)
  }

  // Every entry's token is live with its value; the other tokens are as they were.
  ghost predicate StoredBy(org: string, db: Db, db': Db, req: string, ttl: nat, entries: seq<TokenEntry>) {
    && db'.dek == db.dek && db'.now == db.now
    && (forall e :: e in entries ==>
          var k := Key(req, e.hash);
          k in db'.tokens && Read(org, db', k) == Some(e.original) && db'.tokens[k].deadline == db.now + ttl)
    && (forall k :: k in db'.tokens <==> k in db.tokens || OwnKey(req, entries, k))
    && (forall k :: k in db.tokens && !OwnKey(req, entries, k) ==> db'.tokens[k] == db.tokens[k])
  }

  lemma NothingStored(org: string, db: Db, req: string, ttl: nat)
    ensures StoredBy(org, db, db, req, ttl, [])
  {
  }

  lemma OwnKeyMore(req: string, entries: seq<TokenEntry>, e: TokenEntry, k: Key)
    ensures OwnKey(req, entries + [e], k) <==> OwnKey(req, entries, k) || k == Key(req, e.hash)
  {
    assert e in entries + [e];
  }

  // The token of one more entry; older entries with its hash have its value.
  lemma StoreMore(org: string, db: Db, now: Db, req: string, ttl: nat, entries: seq<TokenEntry>, e: TokenEntry,
                  c: Cipher, revision: nat)
    requires StoredBy(org, db, now, req, ttl, entries) && db.dek.Some?
    requires c.dek == db.dek.value.dek && c.aad == org && c.plain == e.original
    requires forall x :: x in entries && x.hash == e.hash ==> x.original == e.original
    ensures var k := Key(req, e.hash);
            StoredBy(org, db, RegisterTx(StoreTx(now, k, c, ttl, revision), k, ttl), req, ttl, entries + [e])
  {
    var k := Key(req, e.hash);
    var db' := RegisterTx(StoreTx(now, k, c, ttl, revision), k, ttl);
    forall l ensures OwnKey(req, entries + [e], l) <==> OwnKey(req, entries, l) || l == k {
      OwnKeyMore(req, entries, e, l);
    }
    forall x | x in entries + [e]
      ensures var l := Key(req, x.hash);
              l in db'.tokens && Read(org, db', l) == Some(x.original) && db'.tokens[l].deadline == db.now + ttl
    {
      assert x in entries || x == e;
    }
    hide OwnKey;
  }

  // An entry that is there already.
  lemma StoreSame(org: string, db: Db, now: Db, req: string, ttl: nat, entries: seq<TokenEntry>, e: TokenEntry)
    requires StoredBy(org, db, now, req, ttl, entries) && e in entries
    ensures StoredBy(org, db, now, req, ttl, entries + [e])
  {
    forall l ensures OwnKey(req, entries + [e], l) <==> OwnKey(req, entries, l) {
      OwnKeyMore(req, entries, e, l);
    }
    assert forall x :: x in entries + [e] <==> x in entries;
    hide OwnKey;
  }

  // The clients but i keep what they returned.
  ghost predicate OthersKeep(s: State, s': State, i: nat) {
    && s'.org == s.org && s'.clients.Keys == s.clients.Keys + {i}
    && forall j :: j in s.clients && j != i && s.clients[j].Tokenized? ==> s'.clients[j] == s.clients[j]
  }

  lemma KeepOn(s: State, s1: State, s2: State, i: nat)
    requires OthersKeep(s, s1, i) && OthersKeep(s1, s2, i)
    ensures OthersKeep(s, s2, i)
  {
  }

  // Client i has come as far as c; its call has stored these entries.
  ghost predicate Far(s: State, now: State, i: nat, c: Client, call: Call) {
    && OthersKeep(s, now, i) && i in now.clients && now.clients[i] == c
    && StoredBy(s.org, s.db, now.db, call.req, call.ttl, call.a.entries)
  }

  // ---- One command, one span, all spans ----

  // One more command of client i.
  lemma Do(s: State, now: State, i: nat, m: Move, e: Effect, ok: iset<Step>) returns (s': State)
    requires Reaches(s, now, ok) && i in now.clients && Act(i, m) in ok
    requires ClientStep(now.org, now.db, now.supply, now.clients[i], m) == Some(e)
    ensures Reaches(s, s', ok) && s'.db == e.db && s'.supply == e.supply && i in s'.clients && s'.clients[i] == e.client
    ensures OthersKeep(now, s', i)
  {
    hide ClientStep, Reaches, Watches;
    s' := Apply(now, i, e);
    ReachesThen(s, now, Act(i, m), ok);
  }

  lemma FirstCommands(org: string, db: Db, supply: nat, call: Call, x: SpanFusion.Span, base: string)
    requires db.dek == Some(call.w) && 0 < call.ttl && Take(call, x, base).Some?
    ensures var next := Take(call, x, base).value;
            ClientStep(org, db, supply, Holding(call), Detected(x, base))
            == if x.text in call.a.memo then Quietly(db, supply, Holding(next))
               else
                 var cipher := Cipher(call.w.dek, org, x.text, supply);
                 Quietly(db, supply + 1, Storing(next, Job(LastHash(next), x.text), cipher, 0, Unwatched))
  {
    hide Take, LastHash;
  }

  lemma GuardCommands(org: string, db: Db, supply: nat, call: Call, job: Job, cipher: Cipher)
    requires db.dek == Some(call.w) && 0 < call.ttl
    ensures var c := Storing(call, job, cipher, 0, Unwatched);
            && ClientStep(org, db, supply, c, Command) == Quietly(db, supply, c.(guard := Watched(false)))
            && ClientStep(org, db, supply, c.(guard := Watched(false)), Command)
               == Quietly(db, supply, c.(guard := Checked(false)))
  {
  }

  lemma LastCommands(org: string, db: Db, supply: nat, call: Call, job: Job, cipher: Cipher)
    ensures var k := Key(call.req, job.hash);
            ClientStep(org, db, supply, Storing(call, job, cipher, 0, Checked(false)), Command)
            == Some(Effect(StoreTx(db, k, cipher, call.ttl, supply), supply + 1, Registering(call, job),
                           Touched(false, true, None, {k}), [Put(k, job.plain, db.now + call.ttl)]))
    ensures ClientStep(org, db, supply, Registering(call, job), Command)
         == Some(Effect(RegisterTx(db, Key(call.req, job.hash), call.ttl), supply, Holding(call), NOTHING, []))
    ensures ClientStep(org, db, supply, Holding(call), Return)
         == Some(Effect(db, supply, Tokenized(call), NOTHING, []))
  {
    hide StoreTx, RegisterTx;
  }

  // WATCH, GET, EXEC and the second registration.
  lemma StoreAlone(s: State, now: State, i: nat, next: Call, job: Job, cipher: Cipher, ok: iset<Step>)
    returns (s': State)
    requires Reaches(s, now, ok) && Act(i, Command) in ok
    requires i in now.clients && now.clients[i] == Storing(next, job, cipher, 0, Unwatched)
    requires now.db.dek == Some(next.w) && 0 < next.ttl
    ensures Reaches(s, s', ok) && OthersKeep(now, s', i) && i in s'.clients && s'.clients[i] == Holding(next)
    ensures var k := Key(next.req, job.hash);
            exists revision :: s'.db == RegisterTx(StoreTx(now.db, k, cipher, next.ttl, revision), k, next.ttl)
  {
    hide Reaches, ClientStep, OthersKeep, StoreTx, RegisterTx;
    var c, k := Storing(next, job, cipher, 0, Unwatched), Key(next.req, job.hash);
    GuardCommands(now.org, now.db, now.supply, next, job, cipher);
    OrgKept(now, now, i);
    var s1 := Do(s, now, i, Command, Quietly(now.db, now.supply, c.(guard := Watched(false))).value, ok);
    OrgKept(now, s1, i);
    var s2 := Do(s, s1, i, Command, Quietly(now.db, now.supply, c.(guard := Checked(false))).value, ok);
    OrgKept(s1, s2, i);
    LastCommands(now.org, now.db, now.supply, next, job, cipher);
    var db1 := StoreTx(now.db, k, cipher, next.ttl, now.supply);
    var s3 := Do(s, s2, i, Command, Effect(db1, now.supply + 1, Registering(next, job),
                 Touched(false, true, None, {k}), [Put(k, job.plain, now.db.now + next.ttl)]), ok);
    OrgKept(s2, s3, i);
    LastCommands(now.org, db1, now.supply + 1, next, job, cipher);
    s' := Do(s, s3, i, Command, Effect(RegisterTx(db1, k, next.ttl), now.supply + 1, Holding(next), NOTHING, []), ok);
    KeepOn(now, s1, s2, i);
    KeepOn(now, s2, s3, i);
    KeepOn(now, s3, s', i);
  }

  lemma OrgKept(s: State, s': State, i: nat)
    ensures OthersKeep(s, s', i) ==> s'.org == s.org
  {
  }

  // The call after its first n spans.
  ghost function CallAt(req: string, w: Wrapped, ttl: nat, seed: map<string, string>, spans: seq<SpanFusion.Span>,
                        bases: seq<string>, n: nat): Call
    requires n <= |spans| == |bases| && Assign(seed, spans[..n], bases[..n]).Some?
  {
    Call(req, w, ttl, seed, spans[..n], bases[..n], Assign(seed, spans[..n], bases[..n]).value)
  }

  // The call next is call with one more entry e, for a value x and its hash.
  ghost predicate AddsEntry(call: Call, next: Call, x: SpanFusion.Span, base: string, e: TokenEntry) {
    && Take(call, x, base) == Some(next) && next.a.entries == call.a.entries + [e]
    && e.original == x.text && LastHash(next) == e.hash
    && next.req == call.req && next.w == call.w && next.ttl == call.ttl
    && (x.text in call.a.memo ==> e in call.a.entries)
    && (forall y :: y in call.a.entries && y.hash == e.hash ==> y.original == e.original)
  }

  // The entry that span n is given, and what it means for the entries before it.
  lemma NextEntry(req: string, w: Wrapped, ttl: nat, seed: map<string, string>, spans: seq<SpanFusion.Span>,
                  bases: seq<string>, n: nat) returns (e: TokenEntry)
    requires n < |spans| == |bases| && Assign(seed, spans, bases).Some?
    ensures Assign(seed, spans[..n], bases[..n]).Some? && Assign(seed, spans[..n + 1], bases[..n + 1]).Some?
    ensures AddsEntry(CallAt(req, w, ttl, seed, spans, bases, n), CallAt(req, w, ttl, seed, spans, bases, n + 1),
                     spans[n], bases[n], e)
  {
    hide AssignRest, AssignOne, EntryOk;
    AssignPrefix(seed, spans, bases, n);
    AssignPrefix(seed, spans, bases, n + 1);
    var a := Assign(seed, spans[..n], bases[..n]).value;
    AssignNext(seed, spans[..n], bases[..n], spans[n], bases[n]);
    var b := AssignOne(a, spans[n], bases[n]).value;
    assert spans[..n + 1] == spans[..n] + [spans[n]] && bases[..n + 1] == bases[..n] + [bases[n]];
    e := b.entries[|a.entries|];
    assert b.entries == a.entries + [e];
    AssignSound(Assigned([], seed, map[]), spans[..n + 1], bases[..n + 1]);
    forall x | x in a.entries && x.hash == e.hash ensures x.original == e.original {
      var m :| 0 <= m < |a.entries| && a.entries[m] == x;
      assert b.entries[m] == x;
      EntryHash(b.seen, x);
      EntryHash(b.seen, e);
    }
  }

  // A value that came before, or a new one that is stored.
  lemma TakeAlone(s: State, now: State, i: nat, call: Call, next: Call, x: SpanFusion.Span, base: string, e: TokenEntry,
                  ok: iset<Step>) returns (now': State)
    requires s.db.dek == Some(call.w) && 0 < call.ttl && AddsEntry(call, next, x, base, e)
    requires Act(i, Detected(x, base)) in ok && Act(i, Command) in ok
    requires Reaches(s, now, ok) && Far(s, now, i, Holding(call), call)
    ensures Reaches(s, now', ok) && Far(s, now', i, Holding(next), next)
  {
    FirstCommands(now.org, now.db, now.supply, call, x, base);
    hide Reaches, ClientStep, StoredBy, Take, LastHash, StoreTx, RegisterTx;
    if x.text in call.a.memo {
      now' := Do(s, now, i, Detected(x, base), Quietly(now.db, now.supply, Holding(next)).value, ok);
      StoreSame(s.org, s.db, now.db, call.req, call.ttl, call.a.entries, e);
    } else {
      var cipher := Cipher(call.w.dek, now.org, x.text, now.supply);
      var c := Storing(next, Job(LastHash(next), x.text), cipher, 0, Unwatched);
      var s1 := Do(s, now, i, Detected(x, base), Quietly(now.db, now.supply + 1, c).value, ok);
      now' := StoreAlone(s, s1, i, next, c.job, cipher, ok);
      KeepOn(s, now, s1, i);
      KeepOn(s, s1, now', i);
      var k := Key(call.req, e.hash);
      var revision :| now'.db == RegisterTx(StoreTx(now.db, k, cipher, call.ttl, revision), k, call.ttl);
      StoreMore(s.org, s.db, now.db, call.req, call.ttl, call.a.entries, e, cipher, revision);
    }
  }

  // The call after its first n spans, and so to its end.
  lemma {:induction false} SpansAlone(s: State, i: nat, req: string, ttl: nat, seed: map<string, string>,
                                      spans: seq<SpanFusion.Span>, bases: seq<string>, n: nat) returns (now: State)
    requires s.db.dek.Some? && i !in s.clients && 0 < ttl
    requires n <= |spans| == |bases| && Assign(seed, spans, bases).Some?
    ensures Assign(seed, spans[..n], bases[..n]).Some?
    ensures var call := CallAt(req, s.db.dek.value, ttl, seed, spans, bases, n);
            Reaches(s, now, CallSteps(i, req, ttl, seed, spans, bases)) && Far(s, now, i, Holding(call), call)
    decreases n
  {
    var w, ok := s.db.dek.value, CallSteps(i, req, ttl, seed, spans, bases);
    AssignPrefix(seed, spans, bases, n);
    hide Reaches, Assign, Far, Take, LastHash;
    if n == 0 {
      now := Started(s, i, req, ttl, seed, spans, bases);
    } else {
      hide CallAt, CallSteps;
      now := SpansAlone(s, i, req, ttl, seed, spans, bases, n - 1);
      var e := NextEntry(req, w, ttl, seed, spans, bases, n - 1);
      DetectedOk(i, req, ttl, seed, spans, bases, n - 1);
      CallAtIs(req, w, ttl, seed, spans, bases, n - 1);
      now := TakeAlone(s, now, i, CallAt(req, w, ttl, seed, spans, bases, n - 1),
                       CallAt(req, w, ttl, seed, spans, bases, n), spans[n - 1], bases[n - 1], e, ok);
    }
  }

  lemma DetectedOk(i: nat, req: string, ttl: nat, seed: map<string, string>, spans: seq<SpanFusion.Span>,
                   bases: seq<string>, n: nat)
    requires n < |spans| == |bases|
    ensures Act(i, Detected(spans[n], bases[n])) in CallSteps(i, req, ttl, seed, spans, bases)
    ensures Act(i, Command) in CallSteps(i, req, ttl, seed, spans, bases)
  {
    assert IsDetected(Detected(spans[n], bases[n]), spans, bases);
  }

  lemma CallAtIs(req: string, w: Wrapped, ttl: nat, seed: map<string, string>, spans: seq<SpanFusion.Span>,
                 bases: seq<string>, n: nat)
    requires n <= |spans| == |bases| && Assign(seed, spans[..n], bases[..n]).Some?
    ensures var call := CallAt(req, w, ttl, seed, spans, bases, n); call.req == req && call.w == w && call.ttl == ttl
  {
  }

  lemma Started(s: State, i: nat, req: string, ttl: nat, seed: map<string, string>, spans: seq<SpanFusion.Span>,
                bases: seq<string>) returns (now: State)
    requires s.db.dek.Some? && i !in s.clients && |spans| == |bases|
    ensures Assign(seed, spans[..0], bases[..0]).Some?
    ensures var call := CallAt(req, s.db.dek.value, ttl, seed, spans, bases, 0);
            Reaches(s, now, CallSteps(i, req, ttl, seed, spans, bases)) && Far(s, now, i, Holding(call), call)
  {
    var first, ok := NewCall(req, s.db.dek.value, ttl, seed), CallSteps(i, req, ttl, seed, spans, bases);
    assert spans[..0] == [] && bases[..0] == [];
    assert CallAt(req, s.db.dek.value, ttl, seed, spans, bases, 0) == first;
    QuietApply(s, i, s.supply, Holding(first));
    now := Moved(s, i, s.supply, Holding(first));
    ReachesSelf(s, ok);
    hide Reaches, Run, StoredBy;
    ReachesThen(s, s, Spawn(i, Tokenize(req, ttl, seed)), ok);
    NothingStored(s.org, s.db, req, ttl);
  }

  // From every state with a DEK: a call whose allocation succeeds, and that no
  // other client disturbs, stores the token of every entry and returns.
  lemma CallAlone(s: State, i: nat, req: string, ttl: nat, seed: map<string, string>, spans: seq<SpanFusion.Span>,
                  bases: seq<string>) returns (s': State)
    requires s.db.dek.Some? && i !in s.clients && 0 < ttl
    requires |spans| == |bases| && Assign(seed, spans, bases).Some?
    ensures Reaches(s, s', CallSteps(i, req, ttl, seed, spans, bases))
    ensures var call := Call(req, s.db.dek.value, ttl, seed, spans, bases, Assign(seed, spans, bases).value);
            Far(s, s', i, Tokenized(call), call)
  {
    var n, ok := |spans|, CallSteps(i, req, ttl, seed, spans, bases);
    assert spans[..n] == spans && bases[..n] == bases;
    var now := SpansAlone(s, i, req, ttl, seed, spans, bases, n);
    var call := CallAt(req, s.db.dek.value, ttl, seed, spans, bases, n);
    LastCommands(now.org, now.db, now.supply, call, Job("", ""), Cipher(0, "", "", 0));
    hide Reaches, ClientStep, StoredBy, Assign;
    s' := Do(s, now, i, Return, Effect(now.db, now.supply, Tokenized(call), NOTHING, []), ok);
    KeepOn(s, now, s', i);
  }

  // Every token of such a call resolves to its value.
  lemma TokenResolves(s: State, s': State, i: nat, call: Call, e: TokenEntry)
    requires Far(s, s', i, Tokenized(call), call) && e in call.a.entries
    ensures e.hash in Lookup(s.org, s'.db, call.req) && Lookup(s.org, s'.db, call.req)[e.hash] == e.original
  {
    hide Read;
    var k := Key(call.req, e.hash);
    assert k in s'.db.tokens && k.req == call.req;
  }
}
