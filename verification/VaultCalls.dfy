// What tokenise calls store, over every run: a call follows its own allocation of
// hashes, stores every entry before it returns, and nobody else stores for it.
module VaultCalls {
  import opened Wrappers
  import opened VaultStore
  import opened VaultProtocol
  import opened VaultSafety
  import opened VaultRotation
  import opened CollisionTracker
  import SpanFusion

  function CallOf(c: Client): Option<Call> {
    match c
    case Holding(call) => Some(call)
    case Storing(call, _, _, _, _) => Some(call)
    case Rereading(call, _, _) => Some(call)
    case Registering(call, _) => Some(call)
    case Tokenized(call) => Some(call)
    case _ => None
  }

  // The call's entries, tracker and memo are those of the span loop.
  ghost predicate CallOk(call: Call) {
    |call.spans| == |call.bases| && Assign(call.seed, call.spans, call.bases) == Some(call.a)
  }

  function LastEntry(call: Call): Option<TokenEntry> {
    var es := call.a.entries;
    if es == [] then None else Some(es[|es| - 1])
  }

  ghost predicate JobOk(call: Call, job: Job) {
    match LastEntry(call) case Some(e) => e.hash == job.hash && e.original == job.plain case None => false
  }

  // The entries whose tokens have been stored.
  function Stored(c: Client): seq<TokenEntry> {
    match c
    case Holding(call) => call.a.entries
    case Storing(call, _, _, _, _) => call.a.entries[..if call.a.entries == [] then 0 else |call.a.entries| - 1]
    case Rereading(call, _, _) => call.a.entries[..if call.a.entries == [] then 0 else |call.a.entries| - 1]
    case Registering(call, _) => call.a.entries
    case Tokenized(call) => call.a.entries
    case _ => []
  }

  ghost predicate WasPut(log: seq<Event>, req: string, e: TokenEntry) {
    exists n :: 0 <= n < |log| && log[n].Put? && log[n].key == Key(req, e.hash) && log[n].text == e.original
  }

  ghost predicate Truthful(log: seq<Event>, c: Client) {
    match CallOf(c)
    case None => true
    case Some(call) =>
      && CallOk(call)
      && (c.Storing? ==> JobOk(call, c.job)) && (c.Rereading? ==> JobOk(call, c.job))
      && forall e :: e in Stored(c) ==> WasPut(log, call.req, e)
  }

  lemma PutsGrow(log: seq<Event>, more: seq<Event>, req: string, e: TokenEntry)
    requires WasPut(log, req, e)
    ensures WasPut(log + more, req, e)
  {
    var n :| 0 <= n < |log| && log[n].Put? && log[n].key == Key(req, e.hash) && log[n].text == e.original;
    assert (log + more)[n] == log[n];
  }

  lemma TruthfulGrow(log: seq<Event>, more: seq<Event>, c: Client)
    requires Truthful(log, c)
    ensures Truthful(log + more, c)
  {
    hide WasPut, Assign, JobOk;
    if CallOf(c).Some? {
      forall e | e in Stored(c) ensures WasPut(log + more, CallOf(c).value.req, e) {
        PutsGrow(log, more, CallOf(c).value.req, e);
      }
    }
  }

  // One more span: the call stays well formed, and either its value was stored
  // before, or its entry is the last one.
  lemma TakeOk(call: Call, x: SpanFusion.Span, base: string)
    requires CallOk(call) && Take(call, x, base).Some?
    ensures var next := Take(call, x, base).value;
            && CallOk(next) && next.req == call.req && next.w == call.w
            && Extends(call.a.seen, next.a.seen)
            && |next.a.entries| == |call.a.entries| + 1 && next.a.entries[..|call.a.entries|] == call.a.entries
            && (x.text in call.a.memo ==> next.a.entries[|call.a.entries|] in call.a.entries)
            && JobOk(next, Job(LastHash(next), x.text))
            && LastHash(next) in next.a.seen && next.a.seen[LastHash(next)] == x.text
  {
    hide Assign, AssignOne;
    AssignNext(call.seed, call.spans, call.bases, x, base);
  }

  lemma TakeTruthful(log: seq<Event>, call: Call, x: SpanFusion.Span, base: string, cipher: Cipher)
    requires Truthful(log, Holding(call)) && Take(call, x, base).Some?
    ensures var next := Take(call, x, base).value;
            && Truthful(log, Storing(next, Job(LastHash(next), x.text), cipher, 0, Unwatched))
            && (x.text in call.a.memo ==> Truthful(log, Holding(next)))
  {
    hide CallOk, WasPut, LastHash, Take;
    TakeOk(call, x, base);
    var next := Take(call, x, base).value;
    var n := |call.a.entries|;
    assert next.a.entries == next.a.entries[..n] + [next.a.entries[n]];
  }

  // After the store of its last entry a call has stored all of them.
  lemma StoreTruthful(log: seq<Event>, c: Client, deadline: nat)
    requires c.Storing? && Truthful(log, c)
    ensures Truthful(log + [Put(Key(c.call.req, c.job.hash), c.job.plain, deadline)], Registering(c.call, c.job))
  {
    hide CallOk;
    var put := Put(Key(c.call.req, c.job.hash), c.job.plain, deadline);
    var n := |c.call.a.entries| - 1;
    var last := c.call.a.entries[n];
    TruthfulGrow(log, [put], c);
    assert (log + [put])[|log|] == put;
    assert WasPut(log + [put], c.call.req, last);
    hide WasPut;
    assert c.call.a.entries == c.call.a.entries[..n] + [last];
  }

  lemma EffectTruthful(org: string, db: Db, supply: nat, c: Client, m: Move, log: seq<Event>)
    requires Truthful(log, c) && ClientStep(org, db, supply, c, m).Some?
    ensures var e := ClientStep(org, db, supply, c, m).value; Truthful(log + e.log, e.client)
  {
    var e := ClientStep(org, db, supply, c, m).value;
    TruthfulGrow(log, e.log, c);
    hide Truthful, Take, StoreTx, RegisterTx;
    if CallOf(c).Some? {
      if c.Holding? && m.Detected? && Take(c.call, m.span, m.base).Some? {
        TakeTruthful(log, c.call, m.span, m.base, Cipher(c.call.w.dek, org, m.span.text, supply));
        assert log + [] == log;
      } else if c.Storing? && c.guard == Checked(false) && m == Command {
        StoreTruthful(log, c, db.now + c.call.ttl);
      } else {
        SameCall(log + e.log, c, e.client, org, db, supply, m);
      }
    } else {
      NoCall(log + e.log, org, db, supply, c, m);
    }
  }

  // The commands of a call that neither take a span nor store.
  lemma SameCall(log: seq<Event>, c: Client, c': Client, org: string, db: Db, supply: nat, m: Move)
    requires Truthful(log, c) && CallOf(c).Some? && !(c.Holding? && m.Detected? && Take(c.call, m.span, m.base).Some?)
    requires !(c.Storing? && c.guard == Checked(false) && m == Command)
    requires ClientStep(org, db, supply, c, m).Some? && c' == ClientStep(org, db, supply, c, m).value.client
    ensures Truthful(log, c')
  {
    hide Assign, WasPut, Take, RegisterTx;
  }

  lemma NoCall(log: seq<Event>, org: string, db: Db, supply: nat, c: Client, m: Move)
    requires CallOf(c).None? && ClientStep(org, db, supply, c, m).Some?
    ensures Truthful(log, ClientStep(org, db, supply, c, m).value.client)
  {
    hide CommitTx, UnlinkTx, DropSetTx, Prepared, ScanComplete, AllOpen, FreshNonces;
  }

  lemma SpawnTruthful(db: Db, supply: nat, m: Move, log: seq<Event>)
    requires SpawnStep(db, supply, m).Some?
    ensures Truthful(log, SpawnStep(db, supply, m).value.client)
  {
  }

  lemma NotifyTruthful(log: seq<Event>, c: Client, t: Touched)
    ensures CallOf(Notify(c, t)) == CallOf(c)
    ensures Truthful(log, Notify(c, t)) <==> Truthful(log, c)
  {
    hide Watches, Soil, CallOk, WasPut;
  }

  ghost predicate AllTruthful(s: State) {
    forall i :: i in s.clients ==> Truthful(s.log, s.clients[i])
  }

  lemma ApplyTruthful(s: State, i: nat, e: Effect)
    requires AllTruthful(s) && Truthful(s.log + e.log, e.client)
    ensures AllTruthful(Apply(s, i, e))
  {
    hide Truthful, Notify;
    var s' := Apply(s, i, e);
    forall j | j in s'.clients ensures Truthful(s'.log, s'.clients[j]) {
      if j != i {
        TruthfulGrow(s.log, e.log, s.clients[j]);
        NotifyTruthful(s'.log, s.clients[j], e.touched);
      }
    }
  }

  lemma StepTruthful(s: State, step: Step)
    requires AllTruthful(s) && Next(s, step).Some?
    ensures AllTruthful(Next(s, step).value)
  {
    hide Truthful, Notify, SpawnStep, ClientStep, AdvanceTo, Expired, Apply;
    match step
    case Tick(dt, noticed) =>
      var s' := Next(s, step).value;
      var gone := Expired(s.db, s.db.now + dt);
      forall j | j in s'.clients ensures Truthful(s'.log, s'.clients[j]) {
        TruthfulGrow(s.log, [Drop(gone)], s.clients[j]);
        NotifyTruthful(s'.log, s.clients[j], Touched(false, false, None, gone));
      }
    case Spawn(i, m) =>
      SpawnTruthful(s.db, s.supply, m, s.log + SpawnStep(s.db, s.supply, m).value.log);
      ApplyTruthful(s, i, SpawnStep(s.db, s.supply, m).value);
    case Act(i, m) =>
      EffectTruthful(s.org, s.db, s.supply, s.clients[i], m, s.log);
      ApplyTruthful(s, i, ClientStep(s.org, s.db, s.supply, s.clients[i], m).value);
  }

  lemma {:induction false} RunTruthful(s: State, steps: seq<Step>)
    requires AllTruthful(s) && Run(s, steps).Some?
    ensures AllTruthful(Run(s, steps).value)
    decreases |steps|
  {
    hide AllTruthful, Next;
    if steps != [] {
      StepTruthful(s, steps[0]);
      RunTruthful(Next(s, steps[0]).value, steps[1..]);
    }
  }

  // A tokenise call that returned has given its spans the entries of the span
  // loop, and has stored every one of them.
  lemma ReturnedMeansStored(org: string, steps: seq<Step>, s: State, i: nat)
    requires Run(Init(org), steps) == Some(s) && i in s.clients && s.clients[i].Tokenized?
    ensures var call := s.clients[i].call;
            && |call.spans| == |call.bases| && Assign(call.seed, call.spans, call.bases) == Some(call.a)
            && forall e :: e in call.a.entries ==> WasPut(s.log, call.req, e)
  {
    hide Run, Next, Assign, WasPut;
    RunTruthful(Init(org), steps);
    assert Truthful(s.log, s.clients[i]);
  }

  // ---- Whose stores a request's tokens are ----

  // Only these clients run tokenise calls for the request.
  ghost predicate OnlyBy(steps: seq<Step>, req: string, ids: set<nat>) {
    forall n :: 0 <= n < |steps| && steps[n].Spawn? && steps[n].m.Tokenize? && steps[n].m.req == req ==>
      steps[n].i in ids
  }

  // The client is a call of this request whose tracker gave the value this hash.
  predicate Knows(c: Client, req: string, hash: string, text: string) {
    match CallOf(c)
    case Some(call) => call.req == req && hash in call.a.seen && call.a.seen[hash] == text
    case None => false
  }

  // A client after a step of its own still knows what it knew, or has raised.
  predicate Carries(c: Client, req: string, hash: string, text: string) {
    c.Raised? || Knows(c, req, hash, text)
  }

  ghost predicate Traced(s: State, ids: set<nat>, e: Event, req: string) {
    e.Put? && e.key.req == req ==>
      exists i :: i in ids && i in s.clients && Carries(s.clients[i], req, e.key.hash, e.text)
  }

  ghost predicate Attributed(s: State, req: string, ids: set<nat>) {
    && (forall i :: i in s.clients && CallOf(s.clients[i]).Some? && CallOf(s.clients[i]).value.req == req ==> i in ids)
    && (forall n :: 0 <= n < |s.log| ==> Traced(s, ids, s.log[n], req))
  }

  lemma TakeCarries(log: seq<Event>, org: string, db: Db, supply: nat, c: Client, m: Move,
                    req: string, hash: string, text: string)
    requires c.Holding? && Truthful(log, c) && Carries(c, req, hash, text)
    requires m.Detected? && TokenizeStep(org, db, supply, c, m).Some?
    ensures Carries(TokenizeStep(org, db, supply, c, m).value.client, req, hash, text)
  {
    if Take(c.call, m.span, m.base).Some? {
      TakeOk(c.call, m.span, m.base);
    }
    hide Truthful, Take, CallOk, LastHash;
  }

  lemma EffectCarries(org: string, db: Db, supply: nat, c: Client, m: Move, log: seq<Event>,
                      req: string, hash: string, text: string)
    requires Truthful(log, c) && Carries(c, req, hash, text) && ClientStep(org, db, supply, c, m).Some?
    ensures Carries(ClientStep(org, db, supply, c, m).value.client, req, hash, text)
  {
    if c.Holding? && m.Detected? {
      TakeCarries(log, org, db, supply, c, m, req, hash, text);
    } else if CallOf(c).Some? {
      SameCarries(org, db, supply, c, m, req, hash, text);
    } else {
      hide CallOf, Truthful, ClientStep;
    }
  }

  lemma SameCarries(org: string, db: Db, supply: nat, c: Client, m: Move, req: string, hash: string, text: string)
    requires CallOf(c).Some? && !(c.Holding? && m.Detected?) && ClientStep(org, db, supply, c, m).Some?
    requires Carries(c, req, hash, text)
    ensures Carries(ClientStep(org, db, supply, c, m).value.client, req, hash, text)
  {
    hide Take, StoreTx, RegisterTx;
  }

  lemma EffectCall(org: string, db: Db, supply: nat, c: Client, m: Move)
    requires ClientStep(org, db, supply, c, m).Some?
    ensures var c' := ClientStep(org, db, supply, c, m).value.client;
            CallOf(c').Some? ==> CallOf(c).Some? && CallOf(c').value.req == CallOf(c).value.req
  {
    hide StoreTx, RegisterTx, CommitTx, UnlinkTx, DropSetTx, Prepared;
  }

  // What a step puts, its client knows.
  lemma EffectPuts(org: string, db: Db, supply: nat, c: Client, m: Move, log: seq<Event>)
    requires Truthful(log, c) && ClientStep(org, db, supply, c, m).Some?
    ensures var e := ClientStep(org, db, supply, c, m).value;
            forall n :: 0 <= n < |e.log| && e.log[n].Put? ==>
              Knows(e.client, e.log[n].key.req, e.log[n].key.hash, e.log[n].text)
  {
    if c.Storing? {
      JobKnown(c.call, c.job);
    }
    hide Assign, Take, StoreTx, RegisterTx, CommitTx, UnlinkTx, DropSetTx, Prepared;
  }

  lemma JobKnown(call: Call, job: Job)
    requires CallOk(call) && JobOk(call, job)
    ensures job.hash in call.a.seen && call.a.seen[job.hash] == job.plain
  {
    hide AssignRest, EntryOk;
    AssignSound(Assigned([], call.seed, map[]), call.spans, call.bases);
    EntryHash(call.a.seen, LastEntry(call).value);
  }

  lemma NotifyCarries(c: Client, t: Touched, req: string, hash: string, text: string)
    ensures Carries(Notify(c, t), req, hash, text) <==> Carries(c, req, hash, text)
  {
    hide Watches, Soil;
  }

  // A traced put stays traced when clients only go on.
  lemma TracedOn(s: State, s': State, ids: set<nat>, e: Event, req: string)
    requires Traced(s, ids, e, req)
    requires forall i :: i in s.clients ==> i in s'.clients
    requires forall i, h, v :: i in s.clients && Carries(s.clients[i], req, h, v) ==> Carries(s'.clients[i], req, h, v)
    ensures Traced(s', ids, e, req)
  {
    hide Carries;
  }

  lemma ApplyAttributed(s: State, i: nat, e: Effect, req: string, ids: set<nat>)
    requires Attributed(s, req, ids)
    requires CallOf(e.client).Some? && CallOf(e.client).value.req == req ==> i in ids
    requires i in s.clients ==>
               forall h, v :: Carries(s.clients[i], req, h, v) ==> Carries(e.client, req, h, v)
    requires forall n :: 0 <= n < |e.log| && e.log[n].Put? ==>
               Knows(e.client, e.log[n].key.req, e.log[n].key.hash, e.log[n].text)
    ensures Attributed(Apply(s, i, e), req, ids)
  {
    hide Notify, Knows, Traced, CallOf;
    var s' := Apply(s, i, e);
    forall j | j in s.clients && j != i
      ensures CallOf(s'.clients[j]) == CallOf(s.clients[j])
      ensures forall h, v :: Carries(s.clients[j], req, h, v) ==> Carries(s'.clients[j], req, h, v)
    {
      NotifyTruthful([], s.clients[j], e.touched);
      forall h, v ensures Carries(s.clients[j], req, h, v) ==> Carries(s'.clients[j], req, h, v) {
        NotifyCarries(s.clients[j], e.touched, req, h, v);
      }
    }
    forall n | 0 <= n < |s'.log| ensures Traced(s', ids, s'.log[n], req) {
      if n < |s.log| {
        TracedOn(s, s', ids, s.log[n], req);
      } else {
        NewTraced(s', ids, s'.log[n], req, i);
      }
    }
  }

  lemma NewTraced(s: State, ids: set<nat>, e: Event, req: string, i: nat)
    requires i in s.clients && (e.Put? ==> Knows(s.clients[i], e.key.req, e.key.hash, e.text))
    requires CallOf(s.clients[i]).Some? && CallOf(s.clients[i]).value.req == req ==> i in ids
    ensures Traced(s, ids, e, req)
  {
    if e.Put? && e.key.req == req {
      assert Carries(s.clients[i], req, e.key.hash, e.text);
    }
  }

  lemma SpawnAttributed(s: State, i: nat, m: Move, req: string, ids: set<nat>)
    requires Attributed(s, req, ids) && i !in s.clients && SpawnStep(s.db, s.supply, m).Some?
    requires m.Tokenize? && m.req == req ==> i in ids
    ensures Attributed(Apply(s, i, SpawnStep(s.db, s.supply, m).value), req, ids)
  {
    SpawnLog(s.db, s.supply, m);
    SpawnCall(s.db, s.supply, m);
    hide SpawnStep, CallOf, Apply, Attributed;
    ApplyAttributed(s, i, SpawnStep(s.db, s.supply, m).value, req, ids);
  }

  lemma SpawnCall(db: Db, supply: nat, m: Move)
    requires SpawnStep(db, supply, m).Some?
    ensures var c := SpawnStep(db, supply, m).value.client;
            CallOf(c).Some? ==> m.Tokenize? && CallOf(c).value.req == m.req
  {
  }

  lemma ActAttributed(s: State, i: nat, m: Move, req: string, ids: set<nat>)
    requires AllTruthful(s) && Attributed(s, req, ids) && i in s.clients
    requires ClientStep(s.org, s.db, s.supply, s.clients[i], m).Some?
    ensures Attributed(Apply(s, i, ClientStep(s.org, s.db, s.supply, s.clients[i], m).value), req, ids)
  {
    hide ClientStep, Truthful, CallOf, Carries, Knows, Apply, Traced;
    var c := s.clients[i];
    EffectCall(s.org, s.db, s.supply, c, m);
    EffectPuts(s.org, s.db, s.supply, c, m, s.log);
    var e := ClientStep(s.org, s.db, s.supply, c, m).value;
    forall h, v | Carries(c, req, h, v) ensures Carries(e.client, req, h, v) {
      EffectCarries(s.org, s.db, s.supply, c, m, s.log, req, h, v);
    }
    ApplyAttributed(s, i, e, req, ids);
  }

  lemma TickAttributed(s: State, dt: nat, noticed: set<nat>, req: string, ids: set<nat>)
    requires Attributed(s, req, ids)
    ensures Attributed(Next(s, Tick(dt, noticed)).value, req, ids)
  {
    hide Notify, AdvanceTo, Expired, Knows, CallOf, Traced;
    var s' := Next(s, Tick(dt, noticed)).value;
    var t := Touched(false, false, None, Expired(s.db, s.db.now + dt));
    forall j | j in s.clients
      ensures CallOf(s'.clients[j]) == CallOf(s.clients[j])
      ensures forall h, v :: Carries(s.clients[j], req, h, v) ==> Carries(s'.clients[j], req, h, v)
    {
      NotifyTruthful([], s.clients[j], t);
      forall h, v ensures Carries(s.clients[j], req, h, v) ==> Carries(s'.clients[j], req, h, v) {
        NotifyCarries(s.clients[j], t, req, h, v);
      }
    }
    forall n | 0 <= n < |s'.log| ensures Traced(s', ids, s'.log[n], req) {
      if n < |s.log| {
        TracedOn(s, s', ids, s.log[n], req);
      } else {
        DropTraced(s', ids, Expired(s.db, s.db.now + dt), req);
      }
    }
  }

  lemma DropTraced(s: State, ids: set<nat>, ks: set<Key>, req: string)
    ensures Traced(s, ids, Drop(ks), req)
  {
  }

  lemma {:induction false} RunAttributed(s: State, steps: seq<Step>, req: string, ids: set<nat>)
    requires AllTruthful(s) && Attributed(s, req, ids) && OnlyBy(steps, req, ids) && Run(s, steps).Some?
    ensures Attributed(Run(s, steps).value, req, ids)
    decreases |steps|
  {
    hide AllTruthful, Attributed, ClientStep, SpawnStep, Apply, AdvanceTo, Expired;
    if steps != [] {
      var step := steps[0];
      StepTruthful(s, step);
      match step {
        case Tick(dt, noticed) => TickAttributed(s, dt, noticed, req, ids);
        case Spawn(i, m) => SpawnAttributed(s, i, m, req, ids);
        case Act(i, m) => ActAttributed(s, i, m, req, ids);
      }
      OnlyByRest(steps, req, ids);
      RunAttributed(Next(s, step).value, steps[1..], req, ids);
    }
  }

  lemma OnlyByRest(steps: seq<Step>, req: string, ids: set<nat>)
    requires steps != [] && OnlyBy(steps, req, ids)
    ensures OnlyBy(steps[1..], req, ids)
  {
  }

  // When all calls of a request have returned, and they agree on what each hash
  // stands for, so does every store made for the request.
  lemma StoresAgree(org: string, steps: seq<Step>, s: State, req: string, ids: set<nat>, owner: map<string, string>,
                    n: nat)
    requires Run(Init(org), steps) == Some(s) && OnlyBy(steps, req, ids)
    requires forall i :: i in ids && i in s.clients ==>
               s.clients[i].Tokenized? && Extends(s.clients[i].call.a.seen, owner)
    requires n < |s.log| && s.log[n].Put? && s.log[n].key.req == req
    ensures s.log[n].key.hash in owner && owner[s.log[n].key.hash] == s.log[n].text
  {
    hide Run, Next, OnlyBy;
    RunAttributed(Init(org), steps, req, ids);
    assert Traced(s, ids, s.log[n], req);
    var i :| i in ids && i in s.clients && Carries(s.clients[i], req, s.log[n].key.hash, s.log[n].text);
  }
}
