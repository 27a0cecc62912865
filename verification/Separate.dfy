// Calls that share a request but no carry-over map, whether they return, raise or
// run side by side: they are safe together exactly when the HMAC keeps apart the
// values they tokenise.
module Separate {
  import opened Wrappers
  import opened VaultStore
  import opened VaultProtocol
  import opened VaultSafety
  import opened VaultRotation
  import opened VaultCalls
  import opened VaultProgress
  import opened TokenFormat
  import opened CollisionTracker
  import opened TextPipeline
  import opened RequestRun
  import opened CallProgress
  import opened Rehash
  import SpanFusion

  ghost predicate Injective(vals: iset<string>, hmac: string -> string) {
    forall v, x :: v in vals && x in vals && hmac(v) == hmac(x) ==> v == x
  }

  // Each hash stands for a value of the set, and is its HMAC.
  ghost predicate Hashed(seen: map<string, string>, vals: iset<string>, hmac: string -> string) {
    forall h :: h in seen ==> seen[h] in vals && hmac(seen[h]) == h
  }

  // The calls of the request tokenise values of the set, under this HMAC.
  ghost predicate UsesHmac(s: State, step: Step, req: string, vals: iset<string>, hmac: string -> string) {
    && (step.Spawn? && step.m.Tokenize? && step.m.req == req ==> Hashed(step.m.seed, vals, hmac))
    && (step.Act? && step.m.Detected? && step.i in s.clients && s.clients[step.i].Holding?
        && s.clients[step.i].call.req == req ==>
          step.m.span.text in vals && step.m.base == hmac(step.m.span.text))
  }

  ghost predicate RunUsesHmac(s: State, steps: seq<Step>, req: string, vals: iset<string>, hmac: string -> string)
    decreases |steps|
  {
    steps == [] ||
    (&& UsesHmac(s, steps[0], req, vals, hmac)
     && (Next(s, steps[0]).Some? ==> RunUsesHmac(Next(s, steps[0]).value, steps[1..], req, vals, hmac)))
  }

  // ---- The invariant: every hash of the request is the HMAC of its value ----

  ghost predicate ClientHashed(c: Client, req: string, vals: iset<string>, hmac: string -> string) {
    match CallOf(c)
    case Some(call) => call.req == req ==> Hashed(call.a.seen, vals, hmac)
    case None => true
  }

  ghost predicate EventHashed(e: Event, req: string, vals: iset<string>, hmac: string -> string) {
    e.Put? && e.key.req == req ==> e.text in vals && hmac(e.text) == e.key.hash
  }

  ghost predicate AllHashed(s: State, req: string, vals: iset<string>, hmac: string -> string) {
    && (forall i :: i in s.clients ==> ClientHashed(s.clients[i], req, vals, hmac))
    && (forall n :: 0 <= n < |s.log| ==> EventHashed(s.log[n], req, vals, hmac))
  }

  // No other value can hold the HMAC of a value, so it is the hash given.
  lemma TakeHashed(call: Call, x: SpanFusion.Span, base: string, vals: iset<string>, hmac: string -> string)
    requires Injective(vals, hmac) && Hashed(call.a.seen, vals, hmac)
    requires x.text in vals && base == hmac(x.text) && Take(call, x, base).Some?
    ensures Hashed(Take(call, x, base).value.a.seen, vals, hmac)
  {
    assert !Taken(call.a.seen, base, x.text);
    assert Pick(call.a.seen, base, x.text, 1) == Some(base);
    hide FormatToken;
  }

  lemma EffectHashed(org: string, db: Db, supply: nat, c: Client, m: Move, req: string, vals: iset<string>,
                     hmac: string -> string)
    requires Injective(vals, hmac) && ClientHashed(c, req, vals, hmac) && ClientStep(org, db, supply, c, m).Some?
    requires c.Holding? && m.Detected? && c.call.req == req ==> m.span.text in vals && m.base == hmac(m.span.text)
    ensures ClientHashed(ClientStep(org, db, supply, c, m).value.client, req, vals, hmac)
  {
    if c.Holding? && m.Detected? {
      if c.call.req == req && Take(c.call, m.span, m.base).Some? {
        TakeHashed(c.call, m.span, m.base, vals, hmac);
      }
      hide Hashed, LastHash;
    } else {
      SameSeen(org, db, supply, c, m);
      hide ClientStep, Hashed, CallOf;
    }
  }

  // Other commands leave the call's tracker alone.
  lemma SameSeen(org: string, db: Db, supply: nat, c: Client, m: Move)
    requires ClientStep(org, db, supply, c, m).Some? && !(c.Holding? && m.Detected?)
    ensures var c' := ClientStep(org, db, supply, c, m).value.client;
            CallOf(c').Some? ==>
              && CallOf(c).Some? && CallOf(c').value.req == CallOf(c).value.req
              && CallOf(c').value.a.seen == CallOf(c).value.a.seen
  {
    hide Take, StoreTx, RegisterTx, CommitTx, UnlinkTx, DropSetTx, Prepared;
  }

  // What is put for the request is what the client's tracker says.
  lemma EffectLogged(org: string, db: Db, supply: nat, c: Client, m: Move, log: seq<Event>, req: string,
                     vals: iset<string>, hmac: string -> string)
    requires Truthful(log, c) && ClientStep(org, db, supply, c, m).Some?
    requires ClientHashed(ClientStep(org, db, supply, c, m).value.client, req, vals, hmac)
    ensures var e := ClientStep(org, db, supply, c, m).value;
            forall n :: 0 <= n < |e.log| ==> EventHashed(e.log[n], req, vals, hmac)
  {
    EffectPuts(org, db, supply, c, m, log);
    hide ClientStep, Truthful;
    var e := ClientStep(org, db, supply, c, m).value;
    forall n | 0 <= n < |e.log| ensures EventHashed(e.log[n], req, vals, hmac) {
      if e.log[n].Put? && e.log[n].key.req == req {
        assert Knows(e.client, req, e.log[n].key.hash, e.log[n].text);
      }
    }
  }

  lemma SpawnHashed(db: Db, supply: nat, m: Move, req: string, vals: iset<string>, hmac: string -> string)
    requires SpawnStep(db, supply, m).Some?
    requires m.Tokenize? && m.req == req ==> Hashed(m.seed, vals, hmac)
    ensures ClientHashed(SpawnStep(db, supply, m).value.client, req, vals, hmac)
  {
    hide Hashed;
  }

  lemma NotifyHashed(c: Client, t: Touched, req: string, vals: iset<string>, hmac: string -> string)
    ensures ClientHashed(Notify(c, t), req, vals, hmac) <==> ClientHashed(c, req, vals, hmac)
  {
    NotifyTruthful([], c, t);
    hide Notify, CallOf;
  }

  lemma ApplyHashed(s: State, i: nat, e: Effect, req: string, vals: iset<string>, hmac: string -> string)
    requires AllHashed(s, req, vals, hmac) && ClientHashed(e.client, req, vals, hmac)
    requires forall n :: 0 <= n < |e.log| ==> EventHashed(e.log[n], req, vals, hmac)
    ensures AllHashed(Apply(s, i, e), req, vals, hmac)
  {
    hide ClientHashed, EventHashed, Notify;
    var s' := Apply(s, i, e);
    forall j | j in s'.clients ensures ClientHashed(s'.clients[j], req, vals, hmac) {
      if j != i { NotifyHashed(s.clients[j], e.touched, req, vals, hmac); }
    }
  }

  lemma StepHashed(s: State, step: Step, req: string, vals: iset<string>, hmac: string -> string)
    requires Injective(vals, hmac) && AllTruthful(s) && AllHashed(s, req, vals, hmac)
    requires UsesHmac(s, step, req, vals, hmac) && Next(s, step).Some?
    ensures AllHashed(Next(s, step).value, req, vals, hmac)
  {
    hide ClientStep, SpawnStep, Notify, Apply, ClientHashed, Truthful, AdvanceTo, Expired, Injective;
    match step
    case Tick(dt, noticed) =>
      var s' := Next(s, step).value;
      var gone := Expired(s.db, s.db.now + dt);
      forall j | j in s'.clients ensures ClientHashed(s'.clients[j], req, vals, hmac) {
        NotifyHashed(s.clients[j], Touched(false, false, None, gone), req, vals, hmac);
      }
    case Spawn(i, m) =>
      SpawnHashed(s.db, s.supply, m, req, vals, hmac);
      SpawnLog(s.db, s.supply, m);
      ApplyHashed(s, i, SpawnStep(s.db, s.supply, m).value, req, vals, hmac);
    case Act(i, m) =>
      var c := s.clients[i];
      EffectHashed(s.org, s.db, s.supply, c, m, req, vals, hmac);
      EffectLogged(s.org, s.db, s.supply, c, m, s.log, req, vals, hmac);
      ApplyHashed(s, i, ClientStep(s.org, s.db, s.supply, c, m).value, req, vals, hmac);
  }

  lemma {:induction false} RunHashed(s: State, steps: seq<Step>, req: string, vals: iset<string>,
                                     hmac: string -> string)
    requires Injective(vals, hmac) && AllTruthful(s) && AllHashed(s, req, vals, hmac)
    requires RunUsesHmac(s, steps, req, vals, hmac) && Run(s, steps).Some?
    ensures AllHashed(Run(s, steps).value, req, vals, hmac)
    decreases |steps|
  {
    hide AllTruthful, AllHashed, UsesHmac, Injective, Next;
    if steps != [] {
      StepTruthful(s, steps[0]);
      StepHashed(s, steps[0], req, vals, hmac);
      RunHashed(Next(s, steps[0]).value, steps[1..], req, vals, hmac);
    }
  }

  // Over any run, whatever else uses the request: each returned call of the
  // request rehydrates, if the HMAC is injective on the values tokenised for it.
  lemma SeparateCallsRehydrate(org: string, steps: seq<Step>, s: State, i: nat, text: string, vals: iset<string>,
                               hmac: string -> string)
    requires Run(Init(org), steps) == Some(s) && Returned(org, s, i, text) && Injective(vals, hmac)
    requires RunUsesHmac(Init(org), steps, s.clients[i].call.req, vals, hmac)
    ensures Rehydrates(org, s, i, text, Normalised(text, s.clients[i].call.spans))
  {
    hide Kept, Run, RunUsesHmac, Fits, Quiet, Lookup, Rehydrated, TokenizedText, Normalised, AssignRest, EntryOk;
    var call := s.clients[i].call;
    CallLive(org, steps, s, i, text);
    ReturnedMeansStored(org, steps, s, i);
    RunHashed(Init(org), steps, call.req, vals, hmac);
    AssignSound(Assigned([], call.seed, map[]), call.spans, call.bases);
    assert ClientHashed(s.clients[i], call.req, vals, hmac);
    forall n, j | 0 <= n < |s.log| && 0 <= j < |call.a.entries| && s.log[n].Put?
                  && s.log[n].key == Key(call.req, call.a.entries[j].hash)
      ensures s.log[n].text == call.a.entries[j].original
    {
      assert EventHashed(s.log[n], call.req, vals, hmac);
      EntryHash(call.a.seen, call.a.entries[j]);
    }
    EndToEnd(org, steps, s, call.req, text, call.spans, call.seed, call.bases);
  }
}
