// The per-request index of token hashes: when it covers every live token, what
// breaks it, and what that means for counting and flushing.
module VaultIndex {
  import opened Wrappers
  import opened VaultStore
  import opened VaultProtocol
  import SpanFusion

  // Every live token is registered under its request, the request set outlives
  // it, and no token lives longer than the TTL.
  ghost predicate Indexed(db: Db, ttl: nat) {
    forall k :: k in db.tokens ==>
      && k.req in db.index
      && k.hash in db.index[k.req].members
      && db.tokens[k].deadline <= db.index[k.req].deadline
      && db.tokens[k].deadline <= db.now + ttl
  }

  predicate HasTtl(c: Client, ttl: nat) {
    match c
    case Holding(call) => call.ttl == ttl
    case Storing(call, _, _, _, _) => call.ttl == ttl
    case Rereading(call, _, _) => call.ttl == ttl
    case Registering(call, _) => call.ttl == ttl
    case _ => true
  }

  ghost predicate OneTtl(s: State, ttl: nat) {
    forall i :: i in s.clients ==> HasTtl(s.clients[i], ttl)
  }

  ghost predicate NoneLive(db: Db, req: string) {
    forall k :: k in db.tokens ==> k.req != req
  }

  // Tokenise calls use the fixed TTL, and the final DEL of a flush finds no
  // live token of its request.
  ghost predicate Orderly(s: State, step: Step, ttl: nat) {
    match step
    case Tick(_, _) => true
    case Spawn(_, m) => m.Tokenize? ==> m.ttl == ttl
    case Act(i, _) => i in s.clients && s.clients[i].Dropping? ==> NoneLive(s.db, s.clients[i].req)
  }

  lemma TtlEffect(org: string, db: Db, supply: nat, c: Client, m: Move, ttl: nat)
    requires HasTtl(c, ttl) && ClientStep(org, db, supply, c, m).Some?
    ensures HasTtl(ClientStep(org, db, supply, c, m).value.client, ttl)
  {
  }

  lemma TtlSpawn(db: Db, supply: nat, m: Move, ttl: nat)
    requires SpawnStep(db, supply, m).Some? && (m.Tokenize? ==> m.ttl == ttl)
    ensures HasTtl(SpawnStep(db, supply, m).value.client, ttl)
  {
  }

  lemma TtlNotify(c: Client, t: Touched, ttl: nat)
    ensures HasTtl(Notify(c, t), ttl) <==> HasTtl(c, ttl)
  {
    hide Watches;
  }

  lemma OneTtlStep(s: State, step: Step, ttl: nat)
    requires OneTtl(s, ttl) && Next(s, step).Some?
    requires step.Spawn? && step.m.Tokenize? ==> step.m.ttl == ttl
    ensures OneTtl(Next(s, step).value, ttl)
  {
    hide SpawnStep, ClientStep, HasTtl, Notify, AdvanceTo, Expired;
    var s' := Next(s, step).value;
    forall j | j in s'.clients ensures HasTtl(s'.clients[j], ttl) {
      match step
      case Tick(dt, noticed) =>
        TtlNotify(s.clients[j], Touched(false, false, None, Expired(s.db, s.db.now + dt)), ttl);
      case Spawn(i, m) =>
        if j == i { TtlSpawn(s.db, s.supply, m, ttl); }
        else { TtlNotify(s.clients[j], SpawnStep(s.db, s.supply, m).value.touched, ttl); }
      case Act(i, m) =>
        if j == i { TtlEffect(s.org, s.db, s.supply, s.clients[i], m, ttl); }
        else { TtlNotify(s.clients[j], ClientStep(s.org, s.db, s.supply, s.clients[i], m).value.touched, ttl); }
    }
  }

  lemma IndexedStore(db: Db, k: Key, c: Cipher, ttl: nat, revision: nat)
    requires Indexed(db, ttl)
    ensures Indexed(StoreTx(db, k, c, ttl, revision), ttl)
    ensures Indexed(RegisterTx(db, k, ttl), ttl)
  {
    assert forall j :: j in db.tokens ==> j.hash in Members(db, j.req);
  }

  lemma IndexedUnlink(db: Db, ks: set<Key>, req: string, ttl: nat)
    requires Indexed(db, ttl)
    ensures Indexed(UnlinkTx(db, ks), ttl)
    ensures NoneLive(db, req) ==> Indexed(DropSetTx(db, req), ttl)
  {
  }

  lemma IndexedCommit(db: Db, live: set<Key>, sealed: map<Key, Cipher>, w: Wrapped, revision: nat, op: string, ttl: nat)
    requires Indexed(db, ttl)
    ensures Indexed(CommitTx(db, live, sealed, w, revision, op), ttl)
    ensures Indexed(db.(dek := Some(w)), ttl)
  {
  }

  lemma IndexedEffect(org: string, db: Db, supply: nat, c: Client, m: Move, ttl: nat)
    requires Indexed(db, ttl) && HasTtl(c, ttl)
    requires c.Dropping? ==> NoneLive(db, c.req)
    requires ClientStep(org, db, supply, c, m).Some?
    ensures Indexed(ClientStep(org, db, supply, c, m).value.db, ttl)
  {
    hide Indexed, NoneLive, StoreTx, RegisterTx, UnlinkTx, DropSetTx, CommitTx;
    match c
    case Storing(call, job, cipher, _, _) => IndexedStore(db, Key(call.req, job.hash), cipher, ttl, supply);
    case Registering(call, job) => IndexedStore(db, Key(call.req, job.hash), Cipher(0, "", "", 0), ttl, 0);
    case Unlinking(req, members) => IndexedUnlink(db, KeysOf(req, members), req, ttl);
    case Dropping(req) => IndexedUnlink(db, {}, req, ttl);
    case Creating(cand, _, _) => IndexedCommit(db, {}, map[], cand, 0, "", ttl);
    case Committing(p, phase, _) =>
      if phase.Keys? { IndexedCommit(db, phase.live, p.sealed, p.w, supply, p.op, ttl); }
    case _ =>
  }

  lemma IndexedStep(s: State, step: Step, ttl: nat)
    requires Indexed(s.db, ttl) && OneTtl(s, ttl) && Orderly(s, step, ttl) && Next(s, step).Some?
    ensures Indexed(Next(s, step).value.db, ttl)
  {
    match step
    case Tick(dt, noticed) =>
    case Spawn(i, m) =>
    case Act(i, m) => IndexedEffect(s.org, s.db, s.supply, s.clients[i], m, ttl);
  }

  // The DEL that ends a flush keeps the index complete if and only if no token
  // of the request is live at that moment.
  lemma DropKeepsIndexIff(s: State, i: nat, ttl: nat)
    requires Indexed(s.db, ttl)
    requires i in s.clients && s.clients[i].Dropping?
    ensures Indexed(Next(s, Act(i, Command)).value.db, ttl) <==> NoneLive(s.db, s.clients[i].req)
  {
    var req := s.clients[i].req;
    var db' := Next(s, Act(i, Command)).value.db;
    if !NoneLive(s.db, req) {
      var k :| k in s.db.tokens && k.req == req;
      assert k in db'.tokens && k.req !in db'.index;
    }
  }

  // The steps of one flush_request with nothing in between.
  function FlushSteps(s: State, i: nat, req: string): seq<Step> {
    if Members(s.db, req) == {} then [Spawn(i, Flush(req))]
    else [Spawn(i, Flush(req)), Act(i, Command), Act(i, Command)]
  }

  // Undisturbed, a flush leaves no live token of its request, touches no other
  // request's tokens, and keeps the index complete.
  lemma FlushIsComplete(s: State, i: nat, req: string, ttl: nat)
    requires Indexed(s.db, ttl) && i !in s.clients
    ensures Run(s, FlushSteps(s, i, req)).Some?
    ensures var s' := Run(s, FlushSteps(s, i, req)).value;
            && NoneLive(s'.db, req)
            && Indexed(s'.db, ttl)
            && (forall k :: k in s.db.tokens && k.req != req ==> k in s'.db.tokens && s'.db.tokens[k] == s.db.tokens[k])
  {
    hide ClientStep, Indexed, NoneLive, Notify, UnlinkTx, DropSetTx, Run;
    var first := Spawn(i, Flush(req));
    var s1 := Next(s, first).value;
    if Members(s.db, req) == {} {
      OneStep(s, first);
      NothingToFlush(s.db, req, ttl);
    } else {
      var act := Act(i, Command);
      FlushTwice(s1, i, req, Members(s.db, req));
      ThreeSteps(s, first, act, act);
      UnlinkAll(s.db, req, ttl, Next(Next(s1, act).value, act).value.db);
    }
  }

  lemma FlushTwice(s: State, i: nat, req: string, members: set<string>)
    requires i in s.clients && s.clients[i] == Unlinking(req, members)
    ensures var s2 := Next(s, Act(i, Command));
            && s2.Some? && Next(s2.value, Act(i, Command)).Some?
            && Next(s2.value, Act(i, Command)).value.db
               == DropSetTx(UnlinkTx(s.db, KeysOf(req, members)), req)
  {
    hide Notify;
  }

  lemma NothingToFlush(db: Db, req: string, ttl: nat)
    requires Indexed(db, ttl) && Members(db, req) == {}
    ensures NoneLive(db, req)
  {
    forall k | k in db.tokens ensures k.req != req { assert k.hash in Members(db, k.req); }
  }

  // UNLINK of the registered tokens, then DEL of the request set.
  lemma UnlinkAll(db: Db, req: string, ttl: nat, db': Db)
    requires Indexed(db, ttl)
    requires db' == DropSetTx(UnlinkTx(db, KeysOf(req, Members(db, req))), req)
    ensures NoneLive(db', req) && Indexed(db', ttl)
    ensures forall k :: k in db.tokens && k.req != req ==> k in db'.tokens && db'.tokens[k] == db.tokens[k]
  {
    forall k | k in db'.tokens ensures k.req != req {
      assert k in db.tokens && k.hash in Members(db, k.req);
    }
  }

  lemma OneStep(s: State, a: Step)
    requires Next(s, a).Some?
    ensures Run(s, [a]) == Next(s, a)
  {
    hide Next;
    Onward(s, [a]);
  }

  lemma ThreeThen(s: State, a: Step, b: Step, c: Step, rest: seq<Step>)
    requires Next(s, a).Some? && Next(Next(s, a).value, b).Some?
    requires Next(Next(Next(s, a).value, b).value, c).Some?
    ensures Run(s, [a, b, c] + rest) == Run(Next(Next(Next(s, a).value, b).value, c).value, rest)
  {
    hide Next, Run;
    var s1 := Next(s, a).value;
    var all := [a, b, c] + rest;
    Onward(s, all);
    assert all[1..] == [b, c] + rest && all[1..][1..] == [c] + rest && all[1..][1..][1..] == rest;
    Onward(s1, all[1..]);
    Onward(Next(s1, b).value, all[1..][1..]);
  }

  lemma ThreeSteps(s: State, a: Step, b: Step, c: Step)
    requires Next(s, a).Some? && Next(Next(s, a).value, b).Some?
    requires Next(Next(Next(s, a).value, b).value, c).Some?
    ensures Run(s, [a, b, c]) == Next(Next(Next(s, a).value, b).value, c)
  {
    hide Next;
    ThreeThen(s, a, b, c, []);
    assert [a, b, c] + [] == [a, b, c];
  }

  // A store of the same request that runs between the SMEMBERS and the DEL of a
  // flush, with its registration: its token stays live, and nobody is left to put
  // its hash back into the index.
  function RaceSteps(i: nat, j: nat, x: SpanFusion.Span, base: string): seq<Step> {
    [Act(i, Detected(x, base)), Act(i, Command), Act(i, Command)]
    + ([Act(i, Command), Act(i, Command), Act(j, Command)] + [Act(j, Command)])
  }

  // The call has a new value to store, under a hash that the flush has not seen.
  ghost predicate AboutToStore(s: State, i: nat, j: nat, x: SpanFusion.Span, base: string) {
    && i in s.clients && s.clients[i].Holding? && s.db.dek == Some(s.clients[i].call.w) && 0 < s.clients[i].call.ttl
    && j in s.clients && s.clients[j].Unlinking? && s.clients[j].req == s.clients[i].call.req
    && x.text !in s.clients[i].call.a.memo && Take(s.clients[i].call, x, base).Some?
    && LastHash(Take(s.clients[i].call, x, base).value) !in s.clients[j].members
  }

  lemma RaceLosesToken(s: State, i: nat, j: nat, x: SpanFusion.Span, base: string, ttl: nat)
    requires AboutToStore(s, i, j, x, base)
    ensures Run(s, RaceSteps(i, j, x, base)).Some?
    ensures var s' := Run(s, RaceSteps(i, j, x, base)).value;
            var next := Take(s.clients[i].call, x, base).value;
            var k := Key(next.req, LastHash(next));
            && i in s'.clients && s'.clients[i] == Holding(next) && j in s'.clients && s'.clients[j] == Flushed
            && k in s'.db.tokens && k.req !in s'.db.index && !Indexed(s'.db, ttl)
  {
    hide Next, Run, Indexed, Take, LastHash;
    ThreeQuiet(s, i, j, x, base);
    var a, b, c := Act(i, Detected(x, base)), Act(i, Command), Act(j, Command);
    var s3 := Next(Next(Next(s, a).value, b).value, b).value;
    var next := Take(s.clients[i].call, x, base).value;
    StoreAndRegister(s3, i, j, next, Key(next.req, LastHash(next)));
    var s5 := Next(Next(s3, b).value, b).value;
    FlushMisses(s5, i, j, Key(next.req, LastHash(next)), ttl);
    ThreeThen(s3, b, b, c, [c]);
    OneStep(Next(s5, c).value, c);
    ThreeThen(s, a, b, b, [b, b, c] + [c]);
  }

  // A command that leaves the database alone leaves the other clients alone too.
  lemma QuietOthers(s: State, i: nat, m: Move, supply: nat, c: Client)
    requires i in s.clients && ClientStep(s.org, s.db, s.supply, s.clients[i], m) == Quietly(s.db, supply, c)
    ensures Next(s, Act(i, m)) == Some(s.(supply := supply, clients := s.clients[i := c]))
  {
    hide ClientStep;
    assert (map j | j in s.clients :: Notify(s.clients[j], NOTHING)) == s.clients;
    assert s.log + [] == s.log;
  }

  // The first commands of a store only read.
  lemma ThreeQuiet(s: State, i: nat, j: nat, x: SpanFusion.Span, base: string)
    requires AboutToStore(s, i, j, x, base)
    ensures var s1 := Next(s, Act(i, Detected(x, base)));
            && s1.Some?
            && var s2 := Next(s1.value, Act(i, Command));
               && s2.Some?
               && var s3 := Next(s2.value, Act(i, Command));
                  && s3.Some? && i in s3.value.clients && j in s3.value.clients
                  && s3.value.clients[j] == s.clients[j]
                  && s3.value.clients[i].Storing? && s3.value.clients[i].guard == Checked(false)
                  && var next := Take(s.clients[i].call, x, base).value;
                     s3.value.clients[i].call == next && s3.value.clients[i].job == Job(LastHash(next), x.text)
                     && next.req == s.clients[i].call.req
  {
    var call := s.clients[i].call;
    var next := Take(call, x, base).value;
    assert next.ttl == call.ttl && next.w == call.w && next.req == call.req;
    hide LastHash, Take, Next, Notify;
    var c1 := Storing(next, Job(LastHash(next), x.text), Cipher(call.w.dek, s.org, x.text, s.supply), 0, Unwatched);
    QuietOthers(s, i, Detected(x, base), s.supply + 1, c1);
    var s1 := Next(s, Act(i, Detected(x, base))).value;
    var c2 := c1.(guard := Watched(false));
    QuietOthers(s1, i, Command, s1.supply, c2);
    var s2 := Next(s1, Act(i, Command)).value;
    QuietOthers(s2, i, Command, s2.supply, c2.(guard := Checked(false)));
  }

  // EXEC of the store.
  lemma StoreLands(s: State, i: nat, j: nat, next: Call, k: Key)
    requires i in s.clients && s.clients[i].Storing? && s.clients[i].guard == Checked(false)
    requires s.clients[i].call == next && k == Key(next.req, s.clients[i].job.hash)
    requires j in s.clients && s.clients[j].Unlinking?
    ensures var s1 := Next(s, Act(i, Command));
            && s1.Some? && k in s1.value.db.tokens
            && i in s1.value.clients && s1.value.clients[i] == Registering(next, s.clients[i].job)
            && j in s1.value.clients && s1.value.clients[j] == s.clients[j]
  {
    hide Watches;
  }

  lemma RegisterLands(s: State, i: nat, j: nat, next: Call, job: Job, k: Key)
    requires i in s.clients && s.clients[i] == Registering(next, job) && k in s.db.tokens
    requires j in s.clients && s.clients[j].Unlinking?
    ensures var s1 := Next(s, Act(i, Command));
            && s1.Some? && k in s1.value.db.tokens
            && i in s1.value.clients && s1.value.clients[i] == Holding(next)
            && j in s1.value.clients && s1.value.clients[j] == s.clients[j]
  {
    hide Watches;
  }

  // EXEC and the second registration.
  lemma StoreAndRegister(s: State, i: nat, j: nat, next: Call, k: Key)
    requires i in s.clients && s.clients[i].Storing? && s.clients[i].guard == Checked(false)
    requires s.clients[i].call == next && k == Key(next.req, s.clients[i].job.hash)
    requires j in s.clients && s.clients[j].Unlinking?
    ensures var s1 := Next(s, Act(i, Command));
            && s1.Some?
            && var s2 := Next(s1.value, Act(i, Command));
               && s2.Some? && k in s2.value.db.tokens
               && i in s2.value.clients && s2.value.clients[i] == Holding(next)
               && j in s2.value.clients && s2.value.clients[j] == s.clients[j]
  {
    hide Next;
    StoreLands(s, i, j, next, k);
    RegisterLands(Next(s, Act(i, Command)).value, i, j, next, s.clients[i].job, k);
  }

  // A flush whose SMEMBERS did not see a live token leaves it, unregistered.
  lemma FlushMisses(s: State, i: nat, j: nat, k: Key, ttl: nat)
    requires k in s.db.tokens && i in s.clients && s.clients[i].Holding?
    requires j in s.clients && s.clients[j].Unlinking? && s.clients[j].req == k.req
    requires k.hash !in s.clients[j].members
    ensures var s2 := Next(s, Act(j, Command));
            && s2.Some? && Next(s2.value, Act(j, Command)).Some?
            && var s3 := Next(s2.value, Act(j, Command)).value;
               && i in s3.clients && s3.clients[i] == s.clients[i] && j in s3.clients && s3.clients[j] == Flushed
               && k in s3.db.tokens && k.req !in s3.db.index && !Indexed(s3.db, ttl)
  {
    hide Watches;
    var s2 := Next(s, Act(j, Command)).value;
    assert k in s2.db.tokens && s2.clients[j] == Dropping(k.req) && s2.clients[i] == s.clients[i];
    assert k in Next(s2, Act(j, Command)).value.db.tokens;
  }

  lemma Onward(s: State, steps: seq<Step>)
    requires steps != [] && Next(s, steps[0]).Some?
    ensures Run(s, steps) == Run(Next(s, steps[0]).value, steps[1..])
  {
  }
}
