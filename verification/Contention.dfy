// When the bounded retries give up: never when creating a DEK, and otherwise only
// after as many disturbances by others as there are attempts.
module Contention {
  import opened Wrappers
  import opened VaultStore
  import opened VaultProtocol
  import opened VaultSafety
  import opened VaultRotation
  import opened VaultCalls

  // ---- The DEK of a run ----

  // What an effect does to the DEK: once there it stays, a write touches it, and
  // replacing one is logged as a commit.
  ghost predicate DekEffect(db: Db, e: Effect) {
    && |e.log| <= 1 && (db.dek.Some? ==> e.db.dek.Some?)
    && (e.touched.dek ==> e.db.dek.Some?)
    && (e.db.dek != db.dek ==> e.touched.dek)
    && (e.touched.dek && db.dek.Some? ==> |e.log| == 1 && e.log[0].Commit?)
    && (!e.touched.dek ==> e.log == [] || !e.log[0].Commit?)
  }

  lemma CallDek(org: string, db: Db, supply: nat, c: Client, m: Move)
    requires c.Holding? || c.Storing? || c.Rereading? || c.Registering?
    requires TokenizeStep(org, db, supply, c, m).Some?
    ensures DekEffect(db, TokenizeStep(org, db, supply, c, m).value)
  {
    hide Take, Members;
  }

  lemma CommitDek(db: Db, supply: nat, c: Client, m: Move)
    requires c.Committing? && CommitStep(db, supply, c, m).Some?
    ensures DekEffect(db, CommitStep(db, supply, c, m).value)
  {
  }

  lemma EffectDek(org: string, db: Db, supply: nat, c: Client, m: Move)
    requires ClientInv(org, db, supply, c) && ClientStep(org, db, supply, c, m).Some?
    ensures DekEffect(db, ClientStep(org, db, supply, c, m).value)
  {
    if c.Committing? {
      CommitDek(db, supply, c, m);
    } else if CallOf(c).Some? && !c.Tokenized? {
      CallDek(org, db, supply, c, m);
    } else {
      hide Members, KeysOf, Prepared, CommitStep, TokenizeStep;
    }
  }

  // ---- Creation ----

  // A creator that lost its watched key will find the winner's DEK.
  predicate Creates(c: Client, db: Db) {
    c.Creating? ==>
      && (c.tries > 0 ==> db.dek.Some? && !c.watch.Checked?)
      && (c.watch == Watched(true) || c.watch == Checked(true) ==> db.dek.Some?)
      && c.tries <= 1
  }

  ghost predicate AllCreate(s: State) {
    forall i :: i in s.clients ==> Creates(s.clients[i], s.db)
  }

  lemma EffectCreates(org: string, db: Db, supply: nat, c: Client, m: Move)
    requires Creates(c, db) && ClientStep(org, db, supply, c, m).Some?
    ensures Creates(ClientStep(org, db, supply, c, m).value.client, ClientStep(org, db, supply, c, m).value.db)
    ensures c.Creating? ==> !ClientStep(org, db, supply, c, m).value.client.Raised?
  {
    hide Take, StoreTx, RegisterTx, UnlinkTx, DropSetTx, CommitTx, Prepared;
  }

  lemma NotifyCreates(c: Client, t: Touched, db: Db, db': Db)
    requires Creates(c, db) && (db.dek.Some? ==> db'.dek.Some?) && (t.dek ==> db'.dek.Some?)
    ensures Creates(Notify(c, t), db')
  {
  }

  lemma SpawnCreates(db: Db, supply: nat, m: Move)
    requires SpawnStep(db, supply, m).Some?
    ensures var e := SpawnStep(db, supply, m).value; Creates(e.client, db) && e.db == db && e.touched == NOTHING
  {
  }

  lemma StepCreates(s: State, step: Step)
    requires Inv(s) && AllCreate(s) && Next(s, step).Some?
    ensures AllCreate(Next(s, step).value)
  {
    hide ClientStep, SpawnStep, Notify, Creates, Expired, ClientInv, DbInv, Abs;
    var s' := Next(s, step).value;
    forall j | j in s'.clients ensures Creates(s'.clients[j], s'.db) {
      match step
      case Tick(dt, noticed) =>
        NotifyCreates(s.clients[j], Touched(false, false, None, Expired(s.db, s.db.now + dt)), s.db, s'.db);
        NotifyCreates(s.clients[j], NOTHING, s.db, s'.db);
        SilentNotify(s.clients[j]);
      case Spawn(i, m) =>
        SpawnCreates(s.db, s.supply, m);
        if j != i { NotifyCreates(s.clients[j], NOTHING, s.db, s'.db); }
      case Act(i, m) =>
        EffectDek(s.org, s.db, s.supply, s.clients[i], m);
        EffectCreates(s.org, s.db, s.supply, s.clients[i], m);
        var e := ClientStep(s.org, s.db, s.supply, s.clients[i], m).value;
        if j != i { NotifyCreates(s.clients[j], e.touched, s.db, s'.db); }
    }
  }

  lemma SilentNotify(c: Client)
    ensures Notify(c, NOTHING) == c
  {
  }

  lemma {:induction false} RunCreates(s: State, steps: seq<Step>)
    requires Inv(s) && AllCreate(s) && Run(s, steps).Some?
    ensures Inv(Run(s, steps).value) && AllCreate(Run(s, steps).value)
    decreases |steps|
  {
    hide Inv, AllCreate, Next;
    if steps != [] {
      StepKeeps(s, steps[0]);
      StepCreates(s, steps[0]);
      RunCreates(Next(s, steps[0]).value, steps[1..]);
    }
  }

  // get_or_create_dek never gives up: no step of a creator raises the error.
  lemma CreationNeverContends(org: string, steps: seq<Step>, s: State, i: nat, m: Move)
    requires Run(Init(org), steps) == Some(s) && i in s.clients && s.clients[i].Creating?
    requires Next(s, Act(i, m)).Some?
    ensures !Next(s, Act(i, m)).value.clients[i].Raised?
  {
    hide Run, ClientStep, Inv, Creates;
    RunCreates(Init(org), steps) by { Start(org); }
    EffectCreates(s.org, s.db, s.supply, s.clients[i], m);
  }

  lemma Start(org: string)
    ensures Inv(Init(org)) && AllCreate(Init(org))
  {
  }

  // ---- Storing ----

  function CommitCount(log: seq<Event>): nat {
    if log == [] then 0 else CommitCount(log[..|log| - 1]) + if log[|log| - 1].Commit? then 1 else 0
  }

  lemma CommitCountMore(log: seq<Event>, e: Event)
    ensures CommitCount(log + [e]) == CommitCount(log) + if e.Commit? then 1 else 0
  {
    assert (log + [e])[..|log|] == log;
  }

  predicate Soiled(g: Guard) { g == Watched(true) || g == Checked(true) }

  // Failed attempts of the current store, with the next failure if it is certain.
  function Failures(c: Client, db: Db): nat {
    match c
    case Holding(call) => if db.dek != Some(call.w) then 1 else 0
    case Storing(call, _, _, tries, guard) => tries + if db.dek != Some(call.w) || Soiled(guard) then 1 else 0
    case Rereading(_, _, tries) => tries
    case Registering(call, _) => if db.dek != Some(call.w) then 1 else 0
    case _ => 0
  }

  // Its own commands never bring a call closer to giving up.
  lemma OwnFailures(org: string, db: Db, supply: nat, c: Client, m: Move)
    requires CallOf(c).Some? && db.dek.Some? && ClientStep(org, db, supply, c, m).Some?
    ensures var e := ClientStep(org, db, supply, c, m).value;
            Failures(e.client, e.db) <= Failures(c, db) && e.db.dek == db.dek
    ensures var c' := ClientStep(org, db, supply, c, m).value.client; CallOf(c').Some? || c'.Raised?
  {
    var e := ClientStep(org, db, supply, c, m).value;
    assert c.Holding? && e.client.Holding? ==> e.client.call.w == c.call.w;
    hide StoreTx, RegisterTx;
  }

  // Another client's command adds at most one, and only if it touches the DEK.
  lemma OtherFailures(c: Client, t: Touched, db: Db, db': Db)
    requires db'.dek != db.dek ==> t.dek
    ensures CallOf(Notify(c, t)) == CallOf(c)
    ensures Failures(Notify(c, t), db') <= Failures(c, db) + if t.dek then 1 else 0
  {
  }

  // At most one certain failure for each rotation since the count was n.
  ghost predicate Paid(s: State, j: nat, n: nat) {
    && j in s.clients
    && (s.clients[j].Raised? || (CallOf(s.clients[j]).Some? && s.db.dek.Some?))
    && n + Failures(s.clients[j], s.db) <= CommitCount(s.log)
  }

  lemma StepPaid(s: State, step: Step, j: nat, n: nat)
    requires Inv(s) && Paid(s, j, n) && Next(s, step).Some?
    ensures Paid(Next(s, step).value, j, n)
  {
    hide ClientStep, SpawnStep, Notify, Failures, Expired, ClientInv, DbInv, Abs, CallOf;
    var s' := Next(s, step).value;
    var c := s.clients[j];
    match step
    case Tick(dt, noticed) =>
      var gone := Expired(s.db, s.db.now + dt);
      CommitCountMore(s.log, Drop(gone));
      OtherFailures(c, Touched(false, false, None, gone), s.db, s'.db);
      OtherFailures(c, NOTHING, s.db, s'.db);
      SilentNotify(c);
      NotifyRaised(c, Touched(false, false, None, gone));
    case Spawn(i, m) =>
      SpawnCreates(s.db, s.supply, m);
      SpawnLog(s.db, s.supply, m);
      SilentNotify(c);
      assert s.log + [] == s.log;
    case Act(i, m) => ActPaid(s, i, m, j, n);
  }

  lemma NotifyRaised(c: Client, t: Touched)
    ensures Notify(c, t).Raised? <==> c.Raised?
  {
  }

  lemma ActPaid(s: State, i: nat, m: Move, j: nat, n: nat)
    requires Inv(s) && Paid(s, j, n) && Next(s, Act(i, m)).Some?
    ensures Paid(Next(s, Act(i, m)).value, j, n)
  {
    hide ClientStep, Notify, Failures, ClientInv, DbInv, Abs, CallOf;
    var c, e := s.clients[j], ClientStep(s.org, s.db, s.supply, s.clients[i], m).value;
    EffectDek(s.org, s.db, s.supply, s.clients[i], m);
    assert s.log + [] == s.log;
    if e.log != [] {
      assert e.log == [e.log[0]];
      CommitCountMore(s.log, e.log[0]);
    }
    if i == j {
      StoppedStays(s.org, s.db, s.supply, c, m);
      OwnFailures(s.org, s.db, s.supply, c, m);
    } else {
      OtherFailures(c, e.touched, s.db, e.db);
      NotifyRaised(c, e.touched);
      RaisedPays(Notify(c, e.touched), e.db);
    }
  }

  lemma StoppedStays(org: string, db: Db, supply: nat, c: Client, m: Move)
    ensures c.Raised? ==> ClientStep(org, db, supply, c, m).None?
  {
  }

  lemma RaisedPays(c: Client, db: Db)
    ensures c.Raised? ==> Failures(c, db) == 0
  {
  }

  lemma {:induction false} RunPaid(s: State, steps: seq<Step>, j: nat, n: nat)
    requires Inv(s) && Paid(s, j, n) && Run(s, steps).Some?
    ensures Paid(Run(s, steps).value, j, n)
    decreases |steps|
  {
    hide Inv, Paid, Next;
    if steps != [] {
      StepKeeps(s, steps[0]);
      StepPaid(s, steps[0], j, n);
      RunPaid(Next(s, steps[0]).value, steps[1..], j, n);
    }
  }

  // A tokenise call that gives up storing a token has seen at least five
  // rotations commit since it began.
  lemma StoreContention(org: string, before: seq<Step>, s0: State, j: nat, m: Move, during: seq<Step>, s: State)
    requires Run(Init(org), before) == Some(s0) && m.Tokenize? && Next(s0, Spawn(j, m)).Some?
    requires Run(Next(s0, Spawn(j, m)).value, during) == Some(s)
    requires j in s.clients && s.clients[j].Rereading? && Next(s, Act(j, Command)).Some?
    requires Next(s, Act(j, Command)).value.clients[j].Raised?
    ensures CommitCount(s.log) >= CommitCount(s0.log) + 5
  {
    hide Run, Inv;
    RunCreates(Init(org), before) by { Start(org); }
    var s1 := Next(s0, Spawn(j, m)).value;
    StepKeeps(s0, Spawn(j, m));
    assert s0.log + [] == s0.log;
    RunPaid(s1, during, j, CommitCount(s0.log));
  }

  // ---- Rotating ----

  // What can make a rotation lose a round: a store, a commit, or the loss of a token.
  predicate Stirs(e: Event) {
    match e
    case Put(_, _, _) => true
    case Drop(ks) => ks != {}
    case Commit(_, _, _) => true
  }

  function StirCount(log: seq<Event>): nat {
    if log == [] then 0 else StirCount(log[..|log| - 1]) + if Stirs(log[|log| - 1]) then 1 else 0
  }

  lemma StirCountMore(log: seq<Event>, e: Event)
    ensures StirCount(log + [e]) == StirCount(log) + if Stirs(e) then 1 else 0
  {
    assert (log + [e])[..|log|] == log;
  }

  // The round in progress cannot commit any more.
  predicate Doomed(c: Client, db: Db) {
    match c
    case Opening(_, _, head, revision) => head.Some? && (db.dek != head || db.revision != revision)
    case Scanning(_, _, snap, _) => snap.dek.Some? && !Current(db, snap)
    case Committing(p, _, dirty) => dirty || !Current(db, p.snap)
    case _ => false
  }

  function Tries(c: Client): nat {
    match c
    case Heading(_, tries) => tries
    case Opening(_, tries, _, _) => tries
    case Scanning(_, tries, _, _) => tries
    case Committing(p, _, _) => p.tries
    case _ => 0
  }

  function Losses(c: Client, db: Db): nat { Tries(c) + if Doomed(c, db) then 1 else 0 }

  // The round began with a DEK.
  predicate HasSnap(c: Client) {
    match c
    case Opening(_, _, head, _) => head.Some?
    case Scanning(_, _, snap, _) => snap.dek.Some?
    case Committing(p, _, _) => p.snap.dek.Some?
    case _ => false
  }

  ghost predicate InRotation(c: Client) { Rotating(c) || c.Rotated? || c.Raised? }

  // Its own commands never bring a rotation closer to giving up.
  lemma OwnLosses(org: string, db: Db, supply: nat, c: Client, m: Move)
    requires Rotating(c) && ClientInv(org, db, supply, c) && ClientStep(org, db, supply, c, m).Some?
    ensures var e := ClientStep(org, db, supply, c, m).value;
            Losses(e.client, e.db) <= Losses(c, db) && InRotation(e.client)
  {
    if c.Committing? {
      CommitLosses(org, db, supply, c, m);
    } else {
      hide ScanComplete, AllOpen, FreshNonces, ClientInv;
    }
  }

  lemma CommitLosses(org: string, db: Db, supply: nat, c: Client, m: Move)
    requires c.Committing? && ClientInv(org, db, supply, c) && CommitStep(db, supply, c, m).Some?
    ensures var e := CommitStep(db, supply, c, m).value;
            && Losses(e.client, e.db) <= Losses(c, db) && InRotation(e.client)
            && (e.client.Raised? && !c.phase.Ttl? ==> Losses(c, db) >= 5)
  {
    if c.phase.Keys? && m.Fetch? && m.k in db.tokens && m.k in c.plan.snap.tokens
       && db.tokens[m.k].cipher != c.plan.snap.tokens[m.k]
    {
      RewrittenIsDirty(org, db, supply, c, m.k);
    }
    hide CommitTx, ClientInv;
  }

  // A token of the snapshot that was rewritten has dirtied the WATCH.
  lemma RewrittenIsDirty(org: string, db: Db, supply: nat, c: Client, k: Key)
    requires c.Committing? && c.phase.Keys? && ClientInv(org, db, supply, c)
    requires k in db.tokens && k in c.plan.snap.tokens && db.tokens[k].cipher != c.plan.snap.tokens[k]
    ensures c.dirty
  {
  }

  // An effect that changes what a rotation watches is logged.
  ghost predicate StirEffect(db: Db, e: Effect) {
    && |e.log| <= 1
    && (Writes(db, e) ==> |e.log| == 1 && Stirs(e.log[0]))
  }

  predicate Writes(db: Db, e: Effect) {
    || (db.dek.Some? && (e.db.dek != db.dek || e.touched.dek))
    || e.db.revision != db.revision || e.touched.revision || e.touched.op.Some? || e.touched.keys != {}
  }

  lemma CallStirs(org: string, db: Db, supply: nat, c: Client, m: Move)
    requires c.Holding? || c.Storing? || c.Rereading? || c.Registering?
    requires TokenizeStep(org, db, supply, c, m).Some?
    ensures StirEffect(db, TokenizeStep(org, db, supply, c, m).value)
  {
    hide Take, Members;
  }

  lemma EffectStirs(org: string, db: Db, supply: nat, c: Client, m: Move)
    requires ClientInv(org, db, supply, c) && ClientStep(org, db, supply, c, m).Some?
    ensures StirEffect(db, ClientStep(org, db, supply, c, m).value)
  {
    if CallOf(c).Some? && !c.Tokenized? {
      CallStirs(org, db, supply, c, m);
    } else if c.Committing? {
      CommitStirs(db, supply, c, m);
    } else {
      hide Members, KeysOf, Prepared, CommitStep, TokenizeStep;
    }
  }

  lemma CommitStirs(db: Db, supply: nat, c: Client, m: Move)
    requires c.Committing? && CommitStep(db, supply, c, m).Some?
    ensures StirEffect(db, CommitStep(db, supply, c, m).value)
  {
  }

  // Another client's command adds at most one.
  lemma OtherLosses(c: Client, t: Touched, db: Db, db': Db)
    ensures Rotating(Notify(c, t)) == Rotating(c) && HasSnap(Notify(c, t)) == HasSnap(c)
    ensures InRotation(c) ==> InRotation(Notify(c, t))
    ensures Losses(Notify(c, t), db') <= Losses(c, db) + 1
    ensures t.keys == {} && !t.dek && !t.revision && t.op.None? && db'.dek == db.dek && db'.revision == db.revision ==>
              Losses(Notify(c, t), db') <= Losses(c, db)
  {
  }

  // Only a round with a DEK can be doomed by a write.
  lemma NoSnapNoLoss(org: string, db: Db, supply: nat, c: Client, t: Touched, db': Db)
    requires ClientInv(org, db, supply, c) && !HasSnap(c)
    ensures Losses(Notify(c, t), db') <= Losses(c, db)
  {
  }

  // At most one lost round for each disturbance since the count was n.
  ghost predicate Owed(s: State, j: nat, n: nat) {
    && j in s.clients && InRotation(s.clients[j])
    && (HasSnap(s.clients[j]) ==> s.db.dek.Some?)
    && n + Losses(s.clients[j], s.db) <= StirCount(s.log)
  }

  lemma OwnSnap(org: string, db: Db, supply: nat, c: Client, m: Move)
    requires Rotating(c) && (HasSnap(c) ==> db.dek.Some?) && ClientStep(org, db, supply, c, m).Some?
    ensures var e := ClientStep(org, db, supply, c, m).value; HasSnap(e.client) ==> db.dek.Some?
  {
    hide ScanComplete, AllOpen, FreshNonces, CommitTx;
  }

  lemma ActOwed(s: State, i: nat, m: Move, j: nat, n: nat)
    requires Inv(s) && Owed(s, j, n) && Next(s, Act(i, m)).Some?
    ensures Owed(Next(s, Act(i, m)).value, j, n)
  {
    hide ClientStep, Notify, Losses, HasSnap, ClientInv, DbInv, Abs, Rotating;
    var c, e := s.clients[j], ClientStep(s.org, s.db, s.supply, s.clients[i], m).value;
    EffectDek(s.org, s.db, s.supply, s.clients[i], m);
    EffectStirs(s.org, s.db, s.supply, s.clients[i], m);
    assert s.log + [] == s.log;
    if e.log != [] {
      assert e.log == [e.log[0]];
      StirCountMore(s.log, e.log[0]);
    }
    if i == j {
      EndedStays(s.org, s.db, s.supply, c, m);
      OwnLosses(s.org, s.db, s.supply, c, m);
      OwnSnap(s.org, s.db, s.supply, c, m);
    } else {
      OtherLosses(c, e.touched, s.db, e.db);
      if !HasSnap(c) {
        NoSnapNoLoss(s.org, s.db, s.supply, c, e.touched, e.db);
      }
    }
  }

  lemma EndedStays(org: string, db: Db, supply: nat, c: Client, m: Move)
    ensures c.Raised? || c.Rotated? ==> ClientStep(org, db, supply, c, m).None?
  {
  }

  lemma TickOwed(s: State, dt: nat, noticed: set<nat>, j: nat, n: nat)
    requires Owed(s, j, n)
    ensures Owed(Next(s, Tick(dt, noticed)).value, j, n)
  {
    hide Notify, Losses, HasSnap, Expired, AdvanceTo, InRotation;
    var s', c := Next(s, Tick(dt, noticed)).value, s.clients[j];
    var gone := Expired(s.db, s.db.now + dt);
    StirCountMore(s.log, Drop(gone));
    AdvanceKeepsDek(s.db, s.db.now + dt);
    OtherLosses(c, Touched(false, false, None, gone), s.db, s'.db);
    OtherLosses(c, NOTHING, s.db, s'.db);
    SilentNotify(c);
  }

  lemma StepOwed(s: State, step: Step, j: nat, n: nat)
    requires Inv(s) && Owed(s, j, n) && Next(s, step).Some?
    ensures Owed(Next(s, step).value, j, n)
  {
    match step
    case Tick(dt, noticed) => TickOwed(s, dt, noticed, j, n);
    case Spawn(i, m) =>
      hide SpawnStep, Notify, Losses, HasSnap, Inv, InRotation;
      SpawnCreates(s.db, s.supply, m);
      SpawnLog(s.db, s.supply, m);
      SilentNotify(s.clients[j]);
      assert s.log + [] == s.log;
    case Act(i, m) => ActOwed(s, i, m, j, n);
  }

  lemma {:induction false} RunOwed(s: State, steps: seq<Step>, j: nat, n: nat)
    requires Inv(s) && Owed(s, j, n) && Run(s, steps).Some?
    ensures Inv(Run(s, steps).value) && Owed(Run(s, steps).value, j, n)
    decreases |steps|
  {
    hide Inv, Owed, Next;
    if steps != [] {
      StepKeeps(s, steps[0]);
      StepOwed(s, steps[0], j, n);
      RunOwed(Next(s, steps[0]).value, steps[1..], j, n);
    }
  }

  // A rotation that gives up for contention has seen at least five stores, commits
  // or losses of tokens since it began, one in each round.
  lemma RotationContention(org: string, before: seq<Step>, s0: State, j: nat, op: string, during: seq<Step>, s: State,
                           m: Move)
    requires Run(Init(org), before) == Some(s0) && Next(s0, Spawn(j, Rotate(op))).Some?
    requires Run(Next(s0, Spawn(j, Rotate(op))).value, during) == Some(s)
    requires j in s.clients && s.clients[j].Committing? && !s.clients[j].phase.Ttl? && Next(s, Act(j, m)).Some?
    requires Next(s, Act(j, m)).value.clients[j].Raised?
    ensures StirCount(s.log) >= StirCount(s0.log) + 5
  {
    hide Run, Inv;
    RunCreates(Init(org), before) by { Start(org); }
    var s1 := Next(s0, Spawn(j, Rotate(op))).value;
    StepKeeps(s0, Spawn(j, Rotate(op)));
    assert s0.log + [] == s0.log;
    RunOwed(s1, during, j, StirCount(s0.log));
    GivesUp(s, j, m);
  }

  lemma GivesUp(s: State, j: nat, m: Move)
    requires Inv(s) && j in s.clients && s.clients[j].Committing? && !s.clients[j].phase.Ttl?
    requires Next(s, Act(j, m)).Some? && Next(s, Act(j, m)).value.clients[j].Raised?
    ensures Losses(s.clients[j], s.db) >= 5
  {
    CommitLosses(s.org, s.db, s.supply, s.clients[j], m);
    hide CommitStep, Losses, Notify;
  }

  // A store gives up exactly when five attempts have failed, and a rotation after
  // five rounds; before that both start over.
  lemma FiveAttempts(org: string, db: Db, supply: nat, c: Client, m: Move)
    requires ClientStep(org, db, supply, c, m).Some?
    ensures c.Rereading? && db.dek.Some? ==>
              (ClientStep(org, db, supply, c, m).value.client.Raised? <==> c.tries >= 5)
    ensures c.Committing? && !c.phase.Ttl? ==>
              var c' := ClientStep(org, db, supply, c, m).value.client;
              && (c'.Raised? ==> c.plan.tries >= 4)
              && (c'.Heading? ==> c.plan.tries < 4 && c' == Heading(c.plan.op, c.plan.tries + 1))
  {
    hide Take, Prepared, ScanComplete, AllOpen, FreshNonces, CommitTx, StoreTx, RegisterTx, UnlinkTx, DropSetTx;
  }

  // ---- A token that does not open ----

  // Everything read since the head opens under the DEK of the head, which is stored.
  ghost predicate Opens(org: string, c: Client, db: Db) {
    match c
    case Opening(_, _, head, _) => head.Some? ==> db.dek == head
    case Scanning(_, _, snap, _) => snap.dek.Some? ==> db.dek == snap.dek && AllOpen(org, snap.dek.value, snap.tokens)
    case _ => true
  }

  // So it stays until a rotation commits.
  ghost predicate OpensUntil(s: State, j: nat, n: nat) {
    && j in s.clients && n <= CommitCount(s.log)
    && (CommitCount(s.log) == n ==> Opens(s.org, s.clients[j], s.db))
  }

  lemma OwnOpens(org: string, db: Db, supply: nat, c: Client, m: Move)
    requires DbInv(org, db, supply) && Opens(org, c, db) && ClientStep(org, db, supply, c, m).Some?
    ensures var e := ClientStep(org, db, supply, c, m).value; e.db.dek == db.dek ==> Opens(org, e.client, e.db)
  {
    if c.Scanning? && m.Fetch? && m.k in db.tokens && c.snap.dek.Some? {
      var found := c.snap.tokens[m.k := db.tokens[m.k].cipher];
      assert AllOpen(org, c.snap.dek.value, found);
    }
    hide Take, StoreTx, RegisterTx, CommitTx, UnlinkTx, DropSetTx, Prepared, ScanComplete, AllOpen, FreshNonces;
    NoneRead(org);
  }

  lemma NoneRead(org: string)
    ensures forall w :: AllOpen(org, w, map[])
  {
  }

  lemma OtherOpens(org: string, c: Client, t: Touched, db: Db, db': Db)
    requires Opens(org, c, db) && (db.dek.Some? ==> db'.dek == db.dek)
    ensures Opens(org, Notify(c, t), db')
  {
    hide AllOpen, Watches;
  }

  // A command that writes a DEK over one is a commit; a rotation of its own
  // leaves the phases in question.
  lemma ActOpens(s: State, i: nat, m: Move, j: nat, n: nat)
    requires Inv(s) && OpensUntil(s, j, n) && Next(s, Act(i, m)).Some?
    ensures OpensUntil(Next(s, Act(i, m)).value, j, n)
  {
    hide ClientStep, Notify, Opens, ClientInv, DbInv, Abs;
    var c, e := s.clients[j], ClientStep(s.org, s.db, s.supply, s.clients[i], m).value;
    EffectDek(s.org, s.db, s.supply, s.clients[i], m);
    assert s.log + [] == s.log;
    if e.log != [] {
      assert e.log == [e.log[0]];
      CommitCountMore(s.log, e.log[0]);
    }
    if CommitCount(s.log + e.log) == n {
      if i == j {
        OwnOpens(s.org, s.db, s.supply, c, m);
        OwnDek(s.org, s.db, s.supply, c, m);
      } else {
        OtherOpens(s.org, c, e.touched, s.db, e.db);
      }
    }
  }

  // A client that writes a DEK is not reading one for a rotation.
  lemma OwnDek(org: string, db: Db, supply: nat, c: Client, m: Move)
    requires ClientStep(org, db, supply, c, m).Some?
    ensures var e := ClientStep(org, db, supply, c, m).value; e.db.dek != db.dek ==> Opens(org, e.client, e.db)
  {
    hide Take, AllOpen;
  }

  lemma TickOpens(s: State, dt: nat, noticed: set<nat>, j: nat, n: nat)
    requires OpensUntil(s, j, n)
    ensures OpensUntil(Next(s, Tick(dt, noticed)).value, j, n)
  {
    hide Notify, Opens, Expired, AdvanceTo;
    var s', c := Next(s, Tick(dt, noticed)).value, s.clients[j];
    var gone := Expired(s.db, s.db.now + dt);
    CommitCountMore(s.log, Drop(gone));
    AdvanceKeepsDek(s.db, s.db.now + dt);
    if CommitCount(s.log) == n {
      OtherOpens(s.org, c, Touched(false, false, None, gone), s.db, s'.db);
      OtherOpens(s.org, c, NOTHING, s.db, s'.db);
      SilentNotify(c);
    }
  }

  lemma AdvanceKeepsDek(db: Db, t: nat)
    ensures AdvanceTo(db, t).dek == db.dek && AdvanceTo(db, t).revision == db.revision
  {
  }

  lemma StepOpens(s: State, step: Step, j: nat, n: nat)
    requires Inv(s) && OpensUntil(s, j, n) && Next(s, step).Some?
    ensures OpensUntil(Next(s, step).value, j, n)
  {
    match step
    case Tick(dt, noticed) => TickOpens(s, dt, noticed, j, n);
    case Spawn(i, m) =>
      hide SpawnStep, Notify, Opens, Inv;
      SpawnCreates(s.db, s.supply, m);
      SpawnLog(s.db, s.supply, m);
      SilentNotify(s.clients[j]);
      assert s.log + [] == s.log;
    case Act(i, m) => ActOpens(s, i, m, j, n);
  }

  lemma {:induction false} RunOpens(s: State, steps: seq<Step>, j: nat, n: nat)
    requires Inv(s) && OpensUntil(s, j, n) && Run(s, steps).Some?
    ensures OpensUntil(Run(s, steps).value, j, n)
    decreases |steps|
  {
    hide Inv, OpensUntil, Next;
    if steps != [] {
      StepKeeps(s, steps[0]);
      StepOpens(s, steps[0], j, n);
      RunOpens(Next(s, steps[0]).value, steps[1..], j, n);
    }
  }

  // A rotation that raises because a scanned token does not open has been
  // overtaken: another one committed since it read the DEK.
  lemma UndecryptableNeedsCommit(org: string, before: seq<Step>, s0: State, j: nat, during: seq<Step>, s: State,
                                 m: Move)
    requires Run(Init(org), before) == Some(s0) && j in s0.clients && s0.clients[j].Heading?
    requires Next(s0, Act(j, Command)).Some? && Run(Next(s0, Act(j, Command)).value, during) == Some(s)
    requires j in s.clients && s.clients[j].Scanning? && s.clients[j].snap.dek.Some?
    requires Next(s, Act(j, m)).Some? && Next(s, Act(j, m)).value.clients[j].Raised?
    ensures CommitCount(s.log) > CommitCount(s0.log)
  {
    hide Run, Inv, Opens, ClientStep;
    RunCreates(Init(org), before) by { Start(org); }
    var s1 := Next(s0, Act(j, Command)).value;
    StepKeeps(s0, Act(j, Command));
    HeadRead(s0, j);
    RunOpens(s1, during, j, CommitCount(s0.log));
    DoesNotOpen(s, j, m);
  }

  lemma HeadRead(s: State, j: nat)
    requires j in s.clients && s.clients[j].Heading? && Next(s, Act(j, Command)).Some?
    ensures OpensUntil(Next(s, Act(j, Command)).value, j, CommitCount(s.log))
  {
    assert s.log + [] == s.log;
    hide Notify;
  }

  lemma DoesNotOpen(s: State, j: nat, m: Move)
    requires j in s.clients && s.clients[j].Scanning? && s.clients[j].snap.dek.Some?
    requires Next(s, Act(j, m)).Some? && Next(s, Act(j, m)).value.clients[j].Raised?
    ensures !Opens(s.org, s.clients[j], s.db)
  {
    hide AllOpen, ScanComplete, FreshNonces, Notify;
  }
}
