// The calls of a request that run while no rotation commits: they all hold the
// stored DEK, so one HMAC function gives all their hashes.
module SameDek {
  import opened Wrappers
  import opened VaultStore
  import opened VaultProtocol
  import opened VaultSafety
  import opened VaultRotation
  import opened VaultCalls
  import opened VaultProgress
  import opened CollisionTracker
  import opened TextPipeline
  import opened RequestRun
  import SpanFusion
  import CarryOver

  // The HMAC of a span's text under the DEK its call holds.
  ghost predicate Honest(s: State, step: Step, hmac: (nat, string) -> string) {
    step.Act? && step.m.Detected? && step.i in s.clients && s.clients[step.i].Holding? ==>
      step.m.base == hmac(s.clients[step.i].call.w.dek, step.m.span.text)
  }

  ghost predicate HonestRun(s: State, steps: seq<Step>, hmac: (nat, string) -> string)
    decreases |steps|
  {
    steps == [] ||
    (&& Honest(s, steps[0], hmac)
     && (Next(s, steps[0]).Some? ==> HonestRun(Next(s, steps[0]).value, steps[1..], hmac)))
  }

  ghost predicate Hashed(call: Call, dek: nat, hmac: (nat, string) -> string) {
    |call.bases| == |call.spans| && forall n :: 0 <= n < |call.bases| ==> call.bases[n] == hmac(dek, call.spans[n].text)
  }

  predicate OnRequest(c: Client, req: string) { CallOf(c).Some? && CallOf(c).value.req == req }

  // A call of the request holds this wrapped DEK and has hashed under it only.
  ghost predicate Uses(c: Client, req: string, w: Option<Wrapped>, hmac: (nat, string) -> string) {
    OnRequest(c, req) ==> var call := CallOf(c).value; w == Some(call.w) && Hashed(call, call.w.dek, hmac)
  }

  ghost predicate AllUse(s: State, req: string, hmac: (nat, string) -> string) {
    forall i :: i in s.clients ==> Uses(s.clients[i], req, s.db.dek, hmac)
  }

  // No rotation commits between the two states.
  ghost predicate NoCommit(s: State, s': State) {
    forall op :: |Commits(s'.log, op)| <= |Commits(s.log, op)|
  }

  lemma TakeUses(call: Call, x: SpanFusion.Span, base: string, hmac: (nat, string) -> string)
    requires Hashed(call, call.w.dek, hmac) && base == hmac(call.w.dek, x.text) && Take(call, x, base).Some?
    ensures Hashed(Take(call, x, base).value, call.w.dek, hmac) && Take(call, x, base).value.w == call.w
  {
  }

  lemma TakenUses(org: string, db: Db, supply: nat, c: Client, m: Move, req: string, hmac: (nat, string) -> string)
    requires Uses(c, req, db.dek, hmac) && c.Holding? && m.Detected? && TokenizeStep(org, db, supply, c, m).Some?
    requires m.base == hmac(c.call.w.dek, m.span.text)
    ensures Uses(TokenizeStep(org, db, supply, c, m).value.client, req, db.dek, hmac)
  {
    if Take(c.call, m.span, m.base).Some? && c.call.req == req {
      TakeUses(c.call, m.span, m.base, hmac);
    }
  }

  lemma EffectUses(org: string, db: Db, supply: nat, c: Client, m: Move, req: string, hmac: (nat, string) -> string)
    requires Uses(c, req, db.dek, hmac) && ClientStep(org, db, supply, c, m).Some?
    requires c.Holding? && m.Detected? ==> m.base == hmac(c.call.w.dek, m.span.text)
    ensures var e := ClientStep(org, db, supply, c, m).value; Uses(e.client, req, e.db.dek, hmac)
  {
    if c.Holding? && m.Detected? {
      TakenUses(org, db, supply, c, m, req, hmac);
    } else if CallOf(c).Some? {
      CallKeepsDek(org, db, supply, c, m);
      SameUses(org, db, supply, c, m, req, hmac);
    } else {
      EffectCall(org, db, supply, c, m);
      hide ClientStep, CallOf;
    }
  }

  lemma SameUses(org: string, db: Db, supply: nat, c: Client, m: Move, req: string, hmac: (nat, string) -> string)
    requires Uses(c, req, db.dek, hmac) && ClientStep(org, db, supply, c, m).Some?
    requires CallOf(c).Some? && !(c.Holding? && m.Detected?)
    ensures Uses(ClientStep(org, db, supply, c, m).value.client, req, db.dek, hmac)
  {
    hide Take, Hashed, StoreTx, RegisterTx;
  }

  // A tokenise call writes no DEK.
  lemma CallKeepsDek(org: string, db: Db, supply: nat, c: Client, m: Move)
    requires CallOf(c).Some? && ClientStep(org, db, supply, c, m).Some?
    ensures ClientStep(org, db, supply, c, m).value.db.dek == db.dek
  {
    hide Take;
  }

  lemma SpawnUses(db: Db, supply: nat, m: Move, req: string, hmac: (nat, string) -> string)
    requires SpawnStep(db, supply, m).Some?
    ensures Uses(SpawnStep(db, supply, m).value.client, req, db.dek, hmac)
  {
  }

  lemma NotifyUses(c: Client, t: Touched, req: string, w: Option<Wrapped>, hmac: (nat, string) -> string)
    ensures Uses(Notify(c, t), req, w, hmac) <==> Uses(c, req, w, hmac)
  {
    NotifyTruthful([], c, t);
    hide Notify, CallOf;
  }

  // Without a commit a stored DEK stays, and without one no call has started.
  lemma DekStays(s: State, step: Step)
    requires Inv(s) && s.db.dek.Some? && Next(s, step).Some? && NoCommit(s, Next(s, step).value)
    ensures Next(s, step).value.db.dek == s.db.dek
  {
    hide Inv, Next;
    CreationNeverOverwrites(s, step);
    var s' := Next(s, step).value;
    if s'.db.dek != s.db.dek {
      var op, n :| s'.log == s.log + [Commit(op, n, s.db.dek)];
      CommitsOne(s.log, Commit(op, n, s.db.dek), op);
      assert false;
    }
  }

  lemma StepUses(s: State, step: Step, req: string, hmac: (nat, string) -> string)
    requires Inv(s) && AllUse(s, req, hmac) && Honest(s, step, hmac) && Next(s, step).Some?
    requires NoCommit(s, Next(s, step).value)
    ensures AllUse(Next(s, step).value, req, hmac)
  {
    if s.db.dek.Some? {
      DekStays(s, step);
    }
    hide Inv, ClientStep, SpawnStep, Notify, Hashed, AdvanceTo, Expired, NoCommit, CallOf;
    var s' := Next(s, step).value;
    forall j | j in s'.clients ensures Uses(s'.clients[j], req, s'.db.dek, hmac) {
      if j in s.clients && !(step.Act? && step.i == j) {
        OtherUses(s, step, j, req, hmac);
      } else if step.Spawn? {
        SpawnLog(s.db, s.supply, step.m);
        SpawnUses(s.db, s.supply, step.m, req, hmac);
      } else {
        EffectUses(s.org, s.db, s.supply, s.clients[j], step.m, req, hmac);
      }
    }
  }

  lemma OtherUses(s: State, step: Step, j: nat, req: string, hmac: (nat, string) -> string)
    requires j in s.clients && !(step.Act? && step.i == j) && Next(s, step).Some?
    requires Uses(s.clients[j], req, s.db.dek, hmac)
    requires s.db.dek.Some? ==> Next(s, step).value.db.dek == s.db.dek
    ensures var s' := Next(s, step).value; j in s'.clients && Uses(s'.clients[j], req, s'.db.dek, hmac)
  {
    hide ClientStep, SpawnStep, Notify, Hashed, AdvanceTo, Expired, CallOf;
    var c, s' := s.clients[j], Next(s, step).value;
    match step
    case Tick(dt, noticed) =>
      NotifyUses(c, Touched(false, false, None, Expired(s.db, s.db.now + dt)), req, s'.db.dek, hmac);
    case Spawn(i, m) => NotifyUses(c, SpawnStep(s.db, s.supply, m).value.touched, req, s'.db.dek, hmac);
    case Act(i, m) =>
      NotifyUses(c, ClientStep(s.org, s.db, s.supply, s.clients[i], m).value.touched, req, s'.db.dek, hmac);
  }

  lemma {:induction false} RunUses(s: State, steps: seq<Step>, req: string, hmac: (nat, string) -> string)
    requires Inv(s) && AllUse(s, req, hmac) && HonestRun(s, steps, hmac) && Run(s, steps).Some?
    requires NoCommit(s, Run(s, steps).value)
    ensures AllUse(Run(s, steps).value, req, hmac)
    decreases |steps|
  {
    hide Inv, AllUse, Honest, Next;
    if steps != [] {
      var s', final := Next(s, steps[0]).value, Run(s, steps).value;
      StepKeeps(s, steps[0]);
      assert Run(s, steps[..1]) == Some(s') by { First(s, steps); }
      forall op ensures |Commits(s'.log, op)| <= |Commits(s.log, op)|
      && |Commits(final.log, op)| <= |Commits(s'.log, op)| {
        CommitsGrow(s', steps[1..], op);
        CommitsGrow(s, steps[..1], op);
      }
      StepUses(s, steps[0], req, hmac);
      RunUses(s', steps[1..], req, hmac);
    }
  }

  lemma First(s: State, steps: seq<Step>)
    requires steps != [] && Next(s, steps[0]).Some?
    ensures Run(s, steps[..1]) == Next(s, steps[0])
  {
    hide Next;
    assert steps[..1][1..] == [];
    assert Run(Next(s, steps[0]).value, []) == Next(s, steps[0]);
  }

  // A call that has returned stays as it is.
  lemma {:induction false} ReturnedStays(s: State, steps: seq<Step>, i: nat)
    requires i in s.clients && s.clients[i].Tokenized? && Run(s, steps).Some?
    ensures i in Run(s, steps).value.clients && Run(s, steps).value.clients[i] == s.clients[i]
    decreases |steps|
  {
    hide SpawnStep, AdvanceTo, Expired, Watches;
    if steps != [] {
      ReturnedStays(Next(s, steps[0]).value, steps[1..], i);
    }
  }

  // None of these steps starts a call of the request, so none is under way.
  lemma NobodyUses(org: string, steps: seq<Step>, s: State, req: string, hmac: (nat, string) -> string)
    requires Run(Init(org), steps) == Some(s) && OnlyBy(steps, req, {})
    ensures AllUse(s, req, hmac)
  {
    hide Run, Next, OnlyBy;
    RunAttributed(Init(org), steps, req, {});
  }

  // The calls of a request take place during a part of the run in which no
  // rotation commits; anything may happen before and after.
  ghost predicate Meanwhile(org: string, before: seq<Step>, during: seq<Step>, after: seq<Step>, s: State,
                            req: string, calls: seq<nat>)
  {
    && OnlyBy(before, req, {}) && OnlyBy(before + during + after, req, set i | i in calls)
    && Run(Init(org), before).Some?
    && var s0 := Run(Init(org), before).value;
       && Run(s0, during).Some?
       && var s1 := Run(s0, during).value;
          && NoCommit(s0, s1) && Run(s1, after) == Some(s)
          && (forall n :: 0 <= n < |calls| ==> calls[n] in s1.clients && s1.clients[calls[n]].Tokenized?)
          && Chained(s1, req, calls, [])
  }

  lemma MeanwhileUses(org: string, before: seq<Step>, during: seq<Step>, after: seq<Step>, s: State,
                      req: string, calls: seq<nat>, hmac: (nat, string) -> string)
    requires Meanwhile(org, before, during, after, s, req, calls)
    requires HonestRun(Run(Init(org), before).value, during, hmac)
    ensures var s1 := Run(Run(Init(org), before).value, during).value;
            && AllUse(s1, req, hmac)
            && Run(Init(org), before + during + after) == Some(s)
            && forall n :: 0 <= n < |calls| ==> calls[n] in s.clients && s.clients[calls[n]] == s1.clients[calls[n]]
  {
    hide Run, OnlyBy, Chained, AllUse, NoCommit, HonestRun, Inv;
    var s0 := Run(Init(org), before).value;
    var s1 := Run(s0, during).value;
    RunKeeps(Init(org), before) by { InitInv(org); }
    NobodyUses(org, before, s0, req, hmac);
    RunUses(s0, during, req, hmac);
    RunConcat(Init(org), before, during);
    RunConcat(Init(org), before + during, after);
    forall n | 0 <= n < |calls| ensures calls[n] in s.clients && s.clients[calls[n]] == s1.clients[calls[n]] {
      ReturnedStays(s1, after, calls[n]);
    }
  }

  lemma InitInv(org: string)
    ensures Inv(Init(org))
  {
  }

  lemma {:induction false} ChainedStays(s: State, s': State, req: string, calls: seq<nat>, items: Carry)
    requires Chained(s, req, calls, items)
    requires forall n :: 0 <= n < |calls| ==>
               calls[n] in s.clients && calls[n] in s'.clients && s'.clients[calls[n]] == s.clients[calls[n]]
    ensures Chained(s', req, calls, items)
    decreases |calls|
  {
    if calls != [] {
      ChainedStays(s, s', req, calls[1..], CarryOver.Record(items, s.clients[calls[0]].call.a.entries));
    }
  }

  lemma WorksByHmac(s: State, req: string, calls: seq<nat>, hmac: (nat, string) -> string, w: Wrapped)
    requires AllUse(s, req, hmac) && Chained(s, req, calls, []) && s.db.dek == Some(w)
    requires forall n :: 0 <= n < |calls| ==> calls[n] in s.clients && s.clients[calls[n]].Tokenized?
    ensures forall n :: 0 <= n < |calls| ==> CarryOver.ByHmac(Works(s, calls)[n], v => hmac(w.dek, v))
  {
    hide Chained;
    forall n | 0 <= n < |calls| ensures CarryOver.ByHmac(Works(s, calls)[n], v => hmac(w.dek, v)) {
      ChainedAll(s, req, calls, [], n);
      assert Uses(s.clients[calls[n]], req, s.db.dek, hmac);
    }
  }

  // Every text of a route call comes back, with nothing assumed about the hashes,
  // if no rotation commits while its calls run.
  lemma RouteUnderOneDek(org: string, before: seq<Step>, during: seq<Step>, after: seq<Step>, s: State,
                         req: string, calls: seq<nat>, hmac: (nat, string) -> string, m: nat, text: string)
    requires Meanwhile(org, before, during, after, s, req, calls)
    requires HonestRun(Run(Init(org), before).value, during, hmac)
    requires m < |calls| && Returned(org, s, calls[m], text)
    ensures Rehydrates(org, s, calls[m], text, Normalised(text, s.clients[calls[m]].call.spans))
  {
    hide Run, OnlyBy, Chained, Returned, Rehydrates, Normalised, NoCommit, HonestRun, AllUse, CarryOver.KeepsAll;
    MeanwhileUses(org, before, during, after, s, req, calls, hmac);
    var s1 := Run(Run(Init(org), before).value, during).value;
    DekIsThere(s1, req, calls, hmac, m);
    WorksByHmac(s1, req, calls, hmac, s1.db.dek.value);
    ChainedStays(s1, s, req, calls, []);
    assert Works(s, calls) == Works(s1, calls);
    HmacKeepsNothing(Works(s, calls), v => hmac(s1.db.dek.value.dek, v));
    RouteRehydrates(org, before + during + after, s, req, calls, [], map[], m, text);
  }

  lemma DekIsThere(s: State, req: string, calls: seq<nat>, hmac: (nat, string) -> string, m: nat)
    requires AllUse(s, req, hmac) && Chained(s, req, calls, []) && m < |calls|
    ensures s.db.dek.Some?
  {
    ChainedAll(s, req, calls, [], m);
    assert Uses(s.clients[calls[m]], req, s.db.dek, hmac);
  }

  lemma HmacKeepsNothing(works: seq<CarryOver.Work>, hmac: string -> string)
    requires forall n :: 0 <= n < |works| ==> CarryOver.ByHmac(works[n], hmac)
    ensures CarryOver.Mirrors([], map[]) && CarryOver.KeepsAll([], works)
  {
    CarryOver.HmacKeepsAll([], map[], works, hmac);
  }
}
