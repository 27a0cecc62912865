// How long request sets and tokens last, over every run: a set expires exactly one
// TTL after the last registration of its request, so a count never includes a
// request that has been quiet for that long.
module VaultExpiry {
  import opened Wrappers
  import opened VaultStore
  import opened VaultProtocol
  import opened VaultIndex
  import opened VaultFlush

  // The EXEC of a store is next.
  predicate AboutToStore(c: Client, m: Move, k: Key) {
    m.Command? && c.Storing? && c.guard == Checked(false) && Key(c.call.req, c.job.hash) == k
  }

  // A command that puts a hash into the set of the request is next: such an EXEC,
  // or the registration that follows it.
  predicate AboutToRegister(c: Client, m: Move, req: string) {
    m.Command? && (c.Registering? || (c.Storing? && c.guard == Checked(false))) && c.call.req == req
  }

  ghost predicate Stores(s: State, step: Step, k: Key) {
    step.Act? && step.i in s.clients && AboutToStore(s.clients[step.i], step.m, k)
  }

  ghost predicate Registers(s: State, step: Step, req: string) {
    step.Act? && step.i in s.clients && AboutToRegister(s.clients[step.i], step.m, req)
  }

  // ---- A store under way has a positive TTL ----

  predicate Positive(c: Client) {
    match c
    case Storing(call, _, _, _, guard) => guard != Unwatched ==> 0 < call.ttl
    case Registering(call, _) => 0 < call.ttl
    case _ => true
  }

  ghost predicate AllPositive(s: State) {
    forall i :: i in s.clients ==> Positive(s.clients[i])
  }

  lemma PositiveNotify(c: Client, t: Touched)
    ensures Positive(Notify(c, t)) <==> Positive(c)
  {
    hide Watches;
  }

  lemma PositiveAct(org: string, db: Db, supply: nat, c: Client, m: Move)
    requires Positive(c) && ClientStep(org, db, supply, c, m).Some?
    ensures Positive(ClientStep(org, db, supply, c, m).value.client)
  {
    hide Take, StoreTx, RegisterTx, CommitTx, UnlinkTx, DropSetTx, Prepared, ScanComplete, AllOpen, FreshNonces;
  }

  lemma PositiveSpawn(db: Db, supply: nat, m: Move)
    requires SpawnStep(db, supply, m).Some?
    ensures Positive(SpawnStep(db, supply, m).value.client)
  {
  }

  lemma PositiveStep(s: State, step: Step)
    requires AllPositive(s) && Next(s, step).Some?
    ensures AllPositive(Next(s, step).value)
  {
    hide SpawnStep, ClientStep, Positive, Notify, AdvanceTo, Expired;
    var s' := Next(s, step).value;
    forall j | j in s'.clients ensures Positive(s'.clients[j]) {
      match step
      case Tick(dt, noticed) =>
        PositiveNotify(s.clients[j], Touched(false, false, None, Expired(s.db, s.db.now + dt)));
      case Spawn(i, m) =>
        if j == i { PositiveSpawn(s.db, s.supply, m); }
        else { PositiveNotify(s.clients[j], SpawnStep(s.db, s.supply, m).value.touched); }
      case Act(i, m) =>
        if j == i { PositiveAct(s.org, s.db, s.supply, s.clients[i], m); }
        else { PositiveNotify(s.clients[j], ClientStep(s.org, s.db, s.supply, s.clients[i], m).value.touched); }
    }
  }

  // ---- One step ----

  lemma RegisterTimes(db: Db, k: Key, ttl: nat)
    ensures var db' := RegisterTx(db, k, ttl);
            && db'.now == db.now && db'.tokens == db.tokens
            && db'.index.Keys == db.index.Keys + {k.req} && db'.index[k.req].deadline == db.now + ttl
            && (forall r :: r in db.index && r != k.req ==> db'.index[r] == db.index[r])
  {
  }

  lemma StoreTimes(db: Db, k: Key, c: Cipher, ttl: nat, revision: nat)
    ensures var db' := StoreTx(db, k, c, ttl, revision);
            && db'.now == db.now
            && db'.index.Keys == db.index.Keys + {k.req} && db'.index[k.req].deadline == db.now + ttl
            && (forall r :: r in db.index && r != k.req ==> db'.index[r] == db.index[r])
            && db'.tokens.Keys == db.tokens.Keys + {k} && db'.tokens[k].deadline == db.now + ttl
            && (forall l :: l in db.tokens && l != k ==> db'.tokens[l] == db.tokens[l])
  {
  }

  lemma CommitTimes(db: Db, live: set<Key>, sealed: map<Key, Cipher>, w: Wrapped, revision: nat, op: string)
    ensures var db' := CommitTx(db, live, sealed, w, revision, op);
            && db'.now == db.now && db'.index == db.index && db'.tokens.Keys == db.tokens.Keys
            && (forall l :: l in db.tokens ==> db'.tokens[l].deadline == db.tokens[l].deadline)
  {
  }

  // What a command writes.
  lemma Writes(org: string, db: Db, supply: nat, c: Client, m: Move)
    requires ClientStep(org, db, supply, c, m).Some?
    ensures var db' := ClientStep(org, db, supply, c, m).value.db;
            match c
            case Storing(call, job, cipher, _, _) =>
              if AboutToRegister(c, m, call.req) then
                db' == StoreTx(db, Key(call.req, job.hash), cipher, call.ttl, supply)
              else db' == db
            case Registering(call, job) =>
              AboutToRegister(c, m, call.req) && db' == RegisterTx(db, Key(call.req, job.hash), call.ttl)
            case Creating(cand, _, _) => db' == db || db' == db.(dek := Some(cand))
            case Committing(p, phase, _) =>
              db' == db || (phase.Keys? && db' == CommitTx(db, phase.live, p.sealed, p.w, supply, p.op))
            case Unlinking(req, members) => db' == UnlinkTx(db, KeysOf(req, members))
            case Dropping(req) => db' == DropSetTx(db, req)
            case _ => db' == db
  {
    hide Take, Prepared, ScanComplete, AllOpen, FreshNonces, UnlinkTx, DropSetTx, RegisterTx, StoreTx, CommitTx;
  }

  lemma SetEffect(org: string, db: Db, supply: nat, c: Client, m: Move, req: string)
    requires ClientStep(org, db, supply, c, m).Some? && req in ClientStep(org, db, supply, c, m).value.db.index
    ensures var db' := ClientStep(org, db, supply, c, m).value.db;
            && db'.now == db.now
            && (if AboutToRegister(c, m, req) then db'.index[req].deadline == db.now + c.call.ttl
                else req in db.index && db'.index[req] == db.index[req])
  {
    hide ClientStep, RegisterTx, StoreTx, CommitTx;
    Writes(org, db, supply, c, m);
    match c
    case Storing(call, job, cipher, _, _) => StoreTimes(db, Key(call.req, job.hash), cipher, call.ttl, supply);
    case Registering(call, job) => RegisterTimes(db, Key(call.req, job.hash), call.ttl);
    case Committing(p, phase, _) =>
      if phase.Keys? { CommitTimes(db, phase.live, p.sealed, p.w, supply, p.op); }
    case _ =>
  }

  lemma TokenEffect(org: string, db: Db, supply: nat, c: Client, m: Move, k: Key)
    requires ClientStep(org, db, supply, c, m).Some? && k in ClientStep(org, db, supply, c, m).value.db.tokens
    ensures var db' := ClientStep(org, db, supply, c, m).value.db;
            if AboutToStore(c, m, k) then db'.tokens[k].deadline == db.now + c.call.ttl
            else k in db.tokens && db'.tokens[k].deadline == db.tokens[k].deadline
  {
    hide ClientStep, RegisterTx, StoreTx, CommitTx;
    Writes(org, db, supply, c, m);
    match c
    case Storing(call, job, cipher, _, _) => StoreTimes(db, Key(call.req, job.hash), cipher, call.ttl, supply);
    case Registering(call, job) => RegisterTimes(db, Key(call.req, job.hash), call.ttl);
    case Committing(p, phase, _) =>
      if phase.Keys? { CommitTimes(db, phase.live, p.sealed, p.w, supply, p.op); }
    case _ =>
  }

  // What is in a set, and until when, after a command: a registration starts the TTL
  // anew; no other command changes a set that it leaves there.
  lemma SetAct(s: State, step: Step, req: string, ttl: nat)
    requires step.Act? && Next(s, step).Some? && OneTtl(s, ttl) && AllPositive(s)
    requires req in Next(s, step).value.db.index
    ensures var db, db' := s.db, Next(s, step).value.db;
            && db'.now == db.now
            && (if Registers(s, step, req) then 0 < ttl && db'.index[req].deadline == db.now + ttl
                else req in db.index && db'.index[req] == db.index[req])
  {
    hide ClientStep, Notify;
    assert HasTtl(s.clients[step.i], ttl) && Positive(s.clients[step.i]);
    SetEffect(s.org, s.db, s.supply, s.clients[step.i], step.m, req);
  }

  lemma TokenAct(s: State, step: Step, k: Key, ttl: nat)
    requires step.Act? && Next(s, step).Some? && OneTtl(s, ttl) && AllPositive(s)
    requires k in Next(s, step).value.db.tokens
    ensures var db, db' := s.db, Next(s, step).value.db;
            if Stores(s, step, k) then 0 < ttl && db'.tokens[k].deadline == db.now + ttl
            else k in db.tokens && db'.tokens[k].deadline == db.tokens[k].deadline
  {
    hide ClientStep, Notify;
    assert HasTtl(s.clients[step.i], ttl) && Positive(s.clients[step.i]);
    TokenEffect(s.org, s.db, s.supply, s.clients[step.i], step.m, k);
  }

  // When time passes, exactly what is due goes; the rest stays as it is.
  lemma TickExact(s: State, dt: nat, noticed: set<nat>)
    ensures var db' := Next(s, Tick(dt, noticed)).value.db;
            && db'.now == s.db.now + dt
            && (forall r :: r in db'.index <==> r in s.db.index && s.db.index[r].deadline > db'.now)
            && (forall r :: r in db'.index ==> db'.index[r] == s.db.index[r])
            && (forall k :: k in db'.tokens <==> k in s.db.tokens && s.db.tokens[k].deadline > db'.now)
            && (forall k :: k in db'.tokens ==> db'.tokens[k] == s.db.tokens[k])
  {
    hide Notify;
  }

  lemma SpawnChangesNothing(s: State, step: Step)
    requires step.Spawn? && Next(s, step).Some?
    ensures Next(s, step).value.db == s.db
  {
    hide Notify;
  }

  // ---- Runs ----

  lemma {:induction false} TtlAlong(org: string, steps: seq<Step>, n: nat, ttl: nat)
    requires n <= |steps| && At(org, steps, n).Some? && FixedTtl(steps, ttl)
    ensures OneTtl(At(org, steps, n).value, ttl) && AllPositive(At(org, steps, n).value)
    decreases n
  {
    hide At, Next, OneTtl, AllPositive;
    if n == 0 {
      AtStart(org, steps);
      NoClients(org, ttl);
    } else {
      AtNext(org, steps, n - 1);
      TtlAlong(org, steps, n - 1, ttl);
      OneTtlStep(At(org, steps, n - 1).value, steps[n - 1], ttl);
      PositiveStep(At(org, steps, n - 1).value, steps[n - 1]);
    }
  }

  lemma NoClients(org: string, ttl: nat)
    ensures OneTtl(Init(org), ttl) && AllPositive(Init(org)) && Init(org).db == EMPTY
  {
  }

  lemma NowGrows(s: State, step: Step)
    requires Next(s, step).Some?
    ensures s.db.now <= Next(s, step).value.db.now
  {
    match step
    case Tick(dt, noticed) =>
    case Spawn(i, m) => SpawnChangesNothing(s, step);
    case Act(i, m) => NowStays(s.org, s.db, s.supply, s.clients[i], m);
  }

  lemma NowStays(org: string, db: Db, supply: nat, c: Client, m: Move)
    requires ClientStep(org, db, supply, c, m).Some?
    ensures ClientStep(org, db, supply, c, m).value.db.now == db.now
  {
    hide ClientStep;
    Writes(org, db, supply, c, m);
  }

  lemma {:induction false} NowMonotone(org: string, steps: seq<Step>, m: nat, n: nat)
    requires m <= n <= |steps| && At(org, steps, n).Some? && At(org, steps, m).Some?
    ensures At(org, steps, m).value.db.now <= At(org, steps, n).value.db.now
    decreases n
  {
    hide At, Next;
    if m < n {
      AtNext(org, steps, n - 1);
      NowMonotone(org, steps, m, n - 1);
      NowGrows(At(org, steps, n - 1).value, steps[n - 1]);
    }
  }

  // Step q is the last of the first n that registers something for the request.
  ghost predicate LastRegistration(org: string, steps: seq<Step>, n: nat, req: string, q: nat) {
    && q < n <= |steps| && At(org, steps, q).Some? && Registers(At(org, steps, q).value, steps[q], req)
    && forall p :: q < p < n ==> At(org, steps, p).Some? && !Registers(At(org, steps, p).value, steps[p], req)
  }

  // A request set expires one TTL after the last registration of its request.
  lemma {:induction false} SetDeadline(org: string, steps: seq<Step>, n: nat, req: string, ttl: nat) returns (q: nat)
    requires n <= |steps| && At(org, steps, n).Some? && FixedTtl(steps, ttl)
    requires req in At(org, steps, n).value.db.index
    ensures LastRegistration(org, steps, n, req, q)
    ensures At(org, steps, n).value.db.index[req].deadline == At(org, steps, q).value.db.now + ttl
    ensures At(org, steps, n).value.db.now < At(org, steps, n).value.db.index[req].deadline
    decreases n
  {
    hide At, Next, Registers, FixedTtl;
    if n == 0 {
      AtStart(org, steps);
      assert false;
    }
    AtNext(org, steps, n - 1);
    TtlAlong(org, steps, n - 1, ttl);
    var s, step := At(org, steps, n - 1).value, steps[n - 1];
    SetStep(s, step, req, ttl);
    if Registers(s, step, req) {
      q := n - 1;
    } else {
      q := SetDeadline(org, steps, n - 1, req, ttl);
    }
  }

  lemma SetStep(s: State, step: Step, req: string, ttl: nat)
    requires Next(s, step).Some? && OneTtl(s, ttl) && AllPositive(s)
    requires req in Next(s, step).value.db.index
    ensures var db, db' := s.db, Next(s, step).value.db;
            if Registers(s, step, req) then db'.now < db'.index[req].deadline == db.now + ttl
            else req in db.index && db'.index[req] == db.index[req]
                 && (db.now < db.index[req].deadline ==> db'.now < db.index[req].deadline)
  {
    match step
    case Tick(dt, noticed) => TickExact(s, dt, noticed);
    case Spawn(i, m) => SpawnChangesNothing(s, step);
    case Act(i, m) => SetAct(s, step, req, ttl);
  }

  lemma TokenStep(s: State, step: Step, k: Key, ttl: nat)
    requires Next(s, step).Some? && OneTtl(s, ttl) && AllPositive(s)
    requires k in Next(s, step).value.db.tokens
    ensures var db, db' := s.db, Next(s, step).value.db;
            if Stores(s, step, k) then db'.now < db'.tokens[k].deadline == db.now + ttl
            else k in db.tokens && db'.tokens[k].deadline == db.tokens[k].deadline
                 && (db.now < db.tokens[k].deadline ==> db'.now < db.tokens[k].deadline)
  {
    match step
    case Tick(dt, noticed) => TickExact(s, dt, noticed);
    case Spawn(i, m) => SpawnChangesNothing(s, step);
    case Act(i, m) =>
      TokenAct(s, step, k, ttl);
      NowStays(s.org, s.db, s.supply, s.clients[i], m);
  }

  ghost predicate LastStore(org: string, steps: seq<Step>, n: nat, k: Key, q: nat) {
    && q < n <= |steps| && At(org, steps, q).Some? && Stores(At(org, steps, q).value, steps[q], k)
    && forall p :: q < p < n ==> At(org, steps, p).Some? && !Stores(At(org, steps, p).value, steps[p], k)
  }

  // A token expires one TTL after it was last stored, rotations or not.
  lemma {:induction false} TokenDeadline(org: string, steps: seq<Step>, n: nat, k: Key, ttl: nat) returns (q: nat)
    requires n <= |steps| && At(org, steps, n).Some? && FixedTtl(steps, ttl)
    requires k in At(org, steps, n).value.db.tokens
    ensures LastStore(org, steps, n, k, q)
    ensures At(org, steps, n).value.db.tokens[k].deadline == At(org, steps, q).value.db.now + ttl
    ensures At(org, steps, n).value.db.now < At(org, steps, n).value.db.tokens[k].deadline
    decreases n
  {
    hide At, Next, Stores, FixedTtl;
    if n == 0 {
      AtStart(org, steps);
      assert false;
    }
    AtNext(org, steps, n - 1);
    TtlAlong(org, steps, n - 1, ttl);
    var s, step := At(org, steps, n - 1).value, steps[n - 1];
    TokenStep(s, step, k, ttl);
    if Stores(s, step, k) {
      q := n - 1;
    } else {
      q := TokenDeadline(org, steps, n - 1, k, ttl);
    }
  }

  // So no set or token lasts longer than the TTL from now.
  lemma DeadlinesBounded(org: string, steps: seq<Step>, n: nat, ttl: nat)
    requires n <= |steps| && At(org, steps, n).Some? && FixedTtl(steps, ttl)
    ensures var db := At(org, steps, n).value.db;
            && (forall r :: r in db.index ==> db.now < db.index[r].deadline <= db.now + ttl)
            && (forall k :: k in db.tokens ==> db.now < db.tokens[k].deadline <= db.now + ttl)
  {
    hide At, Registers, Stores, FixedTtl;
    var db := At(org, steps, n).value.db;
    forall r | r in db.index ensures db.now < db.index[r].deadline <= db.now + ttl {
      var q := SetDeadline(org, steps, n, r, ttl);
      NowMonotone(org, steps, q, n);
    }
    forall k | k in db.tokens ensures db.now < db.tokens[k].deadline <= db.now + ttl {
      var q := TokenDeadline(org, steps, n, k, ttl);
      NowMonotone(org, steps, q, n);
    }
  }

  // No command of steps m to n registers anything for the request, and they take
  // at least one TTL.
  ghost predicate Quiet(org: string, steps: seq<Step>, m: nat, n: nat, req: string, ttl: nat) {
    && m <= n <= |steps| && At(org, steps, m).Some? && At(org, steps, n).Some?
    && At(org, steps, m).value.db.now + ttl <= At(org, steps, n).value.db.now
    && forall p :: m <= p < n ==> At(org, steps, p).Some? && !Registers(At(org, steps, p).value, steps[p], req)
  }

  // Then the request has no set and no live token, and a count does not see it.
  lemma QuietExpires(org: string, steps: seq<Step>, m: nat, n: nat, req: string, ttl: nat)
    requires Quiet(org, steps, m, n, req, ttl) && FixedTtl(steps, ttl)
    ensures var db := At(org, steps, n).value.db;
            && req !in db.index && NoneLive(db, req)
            && (forall k :: k in VaultStore.Registered(db.index) ==> k.req != req)
            && CardAt(org, steps, Scard(n, req)) == 0
  {
    hide At, FixedTtl;
    var db := At(org, steps, n).value.db;
    if req in db.index {
      var q := SetDeadline(org, steps, n, req, ttl);
      NowMonotone(org, steps, q, if q < m then m else q);
      assert false;
    }
    forall k | k in db.tokens ensures k.req != req {
      if k.req == req {
        var q := TokenDeadline(org, steps, n, k, ttl);
        assert Registers(At(org, steps, q).value, steps[q], req);
        NowMonotone(org, steps, q, if q < m then m else q);
        assert false;
      }
    }
  }

  // ---- What is registered was stored ----

  ghost predicate WasPut(log: seq<Event>, k: Key) {
    exists n :: 0 <= n < |log| && log[n].Put? && log[n].key == k
  }

  ghost predicate OnlyPut(s: State) {
    && (forall r, h :: r in s.db.index && h in s.db.index[r].members ==> WasPut(s.log, Key(r, h)))
    && (forall i :: i in s.clients && s.clients[i].Registering? ==>
          WasPut(s.log, Key(s.clients[i].call.req, s.clients[i].job.hash)))
  }

  lemma PutStays(log: seq<Event>, more: seq<Event>, k: Key)
    requires WasPut(log, k)
    ensures WasPut(log + more, k)
  {
    var n :| 0 <= n < |log| && log[n].Put? && log[n].key == k;
    assert (log + more)[n] == log[n];
  }

  // The members of the sets, and who is about to register what, after a command.
  lemma ActPuts(org: string, db: Db, supply: nat, c: Client, m: Move, log: seq<Event>)
    requires ClientStep(org, db, supply, c, m).Some?
    requires c.Registering? ==> WasPut(log, Key(c.call.req, c.job.hash))
    requires forall r, h :: r in db.index && h in db.index[r].members ==> WasPut(log, Key(r, h))
    ensures var e := ClientStep(org, db, supply, c, m).value;
            && (forall r, h :: r in e.db.index && h in e.db.index[r].members ==> WasPut(log + e.log, Key(r, h)))
            && (e.client.Registering? ==> WasPut(log + e.log, Key(e.client.call.req, e.client.job.hash)))
  {
    var e := ClientStep(org, db, supply, c, m).value;
    Writes(org, db, supply, c, m);
    NextToRegister(org, db, supply, c, m);
    if c.Storing? && e.log != [] {
      PutNow(log, e.log, Key(c.call.req, c.job.hash));
    }
    hide ClientStep, WasPut, UnlinkTx;
    forall r, h | r in e.db.index && h in e.db.index[r].members ensures WasPut(log + e.log, Key(r, h)) {
      if r in db.index && h in db.index[r].members {
        PutStays(log, e.log, Key(r, h));
      } else if c.Registering? {
        PutStays(log, e.log, Key(c.call.req, c.job.hash));
      }
    }
  }

  // Only the EXEC of a store leads to a registration, and it is in the log.
  lemma NextToRegister(org: string, db: Db, supply: nat, c: Client, m: Move)
    requires ClientStep(org, db, supply, c, m).Some?
    ensures var e := ClientStep(org, db, supply, c, m).value;
            && (e.client.Registering? ==> c.Storing? && e.client.call == c.call && e.client.job == c.job && e.log != [])
            && (c.Storing? && e.db != db ==> e.log != [])
            && (c.Storing? && e.log != [] ==> e.log[0].Put? && e.log[0].key == Key(c.call.req, c.job.hash))
  {
    hide Take, Prepared, ScanComplete, AllOpen, FreshNonces, UnlinkTx, DropSetTx, RegisterTx, StoreTx, CommitTx;
  }

  lemma PutNow(log: seq<Event>, more: seq<Event>, k: Key)
    requires more != [] && more[0].Put? && more[0].key == k
    ensures WasPut(log + more, k)
  {
    assert (log + more)[|log|] == more[0];
  }

  lemma NotifyRegistering(c: Client, t: Touched)
    ensures Notify(c, t).Registering? <==> c.Registering?
    ensures c.Registering? ==> Notify(c, t) == c
  {
    hide Watches;
  }

  lemma OnlyPutStep(s: State, step: Step)
    requires OnlyPut(s) && Next(s, step).Some?
    ensures OnlyPut(Next(s, step).value)
  {
    hide Next, WasPut;
    PutSets(s, step);
    PutClients(s, step);
  }

  lemma PutSets(s: State, step: Step)
    requires OnlyPut(s) && Next(s, step).Some?
    ensures var s' := Next(s, step).value;
            forall r, h :: r in s'.db.index && h in s'.db.index[r].members ==> WasPut(s'.log, Key(r, h))
  {
    hide SpawnStep, ClientStep, WasPut, Notify, AdvanceTo, Expired;
    var s' := Next(s, step).value;
    match step
    case Tick(dt, noticed) =>
      TickExact(s, dt, noticed);
      forall r, h | r in s'.db.index && h in s'.db.index[r].members ensures WasPut(s'.log, Key(r, h)) {
        PutStays(s.log, [Drop(Expired(s.db, s.db.now + dt))], Key(r, h));
      }
    case Spawn(i, m) =>
      SpawnRegisters(s.db, s.supply, m);
      SpawnChangesNothing(s, step);
      assert s'.log == s.log;
    case Act(i, m) =>
      ActPuts(s.org, s.db, s.supply, s.clients[i], m, s.log);
  }

  lemma PutClients(s: State, step: Step)
    requires OnlyPut(s) && Next(s, step).Some?
    ensures var s' := Next(s, step).value;
            forall j :: j in s'.clients && s'.clients[j].Registering? ==>
              WasPut(s'.log, Key(s'.clients[j].call.req, s'.clients[j].job.hash))
  {
    hide SpawnStep, ClientStep, WasPut, Notify, AdvanceTo, Expired;
    var s' := Next(s, step).value;
    var more := s'.log[|s.log|..];
    forall j | j in s'.clients && s'.clients[j].Registering?
      ensures WasPut(s'.log, Key(s'.clients[j].call.req, s'.clients[j].job.hash))
    {
      if !step.Tick? && j == step.i {
        if step.Spawn? {
          SpawnRegisters(s.db, s.supply, step.m);
        } else {
          ActPuts(s.org, s.db, s.supply, s.clients[j], step.m, s.log);
        }
      } else {
        OthersRegister(s, step, j);
        assert s'.log == s.log + more;
        PutStays(s.log, more, Key(s.clients[j].call.req, s.clients[j].job.hash));
      }
    }
  }

  // A client that another's step leaves about to register was so before.
  lemma OthersRegister(s: State, step: Step, j: nat)
    requires Next(s, step).Some? && j in Next(s, step).value.clients && (step.Tick? || j != step.i)
    requires Next(s, step).value.clients[j].Registering?
    ensures j in s.clients && Next(s, step).value.clients[j] == s.clients[j]
    ensures |s.log| <= |Next(s, step).value.log| && Next(s, step).value.log[..|s.log|] == s.log
  {
    LogGrows(s, step);
    hide SpawnStep, ClientStep, Notify, AdvanceTo, Expired;
    match step
    case Tick(dt, noticed) =>
      NotifyRegistering(s.clients[j], Touched(false, false, None, Expired(s.db, s.db.now + dt)));
    case Spawn(i, m) => NotifyRegistering(s.clients[j], SpawnStep(s.db, s.supply, m).value.touched);
    case Act(i, m) =>
      NotifyRegistering(s.clients[j], ClientStep(s.org, s.db, s.supply, s.clients[i], m).value.touched);
  }

  lemma SpawnRegisters(db: Db, supply: nat, m: Move)
    requires SpawnStep(db, supply, m).Some?
    ensures !SpawnStep(db, supply, m).value.client.Registering? && SpawnStep(db, supply, m).value.log == []
  {
  }

  // Whatever a request set holds at any moment of a run was stored before.
  lemma {:induction false} RegisteredWasPut(org: string, steps: seq<Step>, n: nat)
    requires n <= |steps| && At(org, steps, n).Some?
    ensures OnlyPut(At(org, steps, n).value)
    ensures var s := At(org, steps, n).value;
            forall k :: k in VaultStore.Registered(s.db.index) ==> WasPut(s.log, k)
    decreases n
  {
    hide At, Next, WasPut;
    if n == 0 {
      AtStart(org, steps);
    } else {
      AtNext(org, steps, n - 1);
      RegisteredWasPut(org, steps, n - 1);
      OnlyPutStep(At(org, steps, n - 1).value, steps[n - 1]);
    }
  }
}
