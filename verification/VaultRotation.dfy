// What DEK rotation and DEK creation promise over whole runs: all or nothing,
// at most once per operation id, and one DEK for all concurrent creators.
module VaultRotation {
  import opened Wrappers
  import opened VaultStore
  import opened VaultProtocol
  import opened VaultSafety

  ghost predicate Rotating(c: Client) {
    c.Heading? || c.Opening? || c.Scanning? || c.Committing?
  }

  // Client i committed its rotation: the plain vault is the same, no token key
  // appears or disappears, no expiry moves, nothing opens with the old DEK, and
  // the result is recorded and logged once.
  ghost predicate Committed(s: State, s': State, i: nat)
    requires i in s.clients && i in s'.clients
  {
    && Abs(s.org, s'.db) == Abs(s.org, s.db)
    && s'.db.tokens.Keys == s.db.tokens.Keys
    && s'.db.index == s.db.index
    && s.db.dek.Some?
    && (forall k :: k in s'.db.tokens ==>
          && s'.db.tokens[k].deadline == s.db.tokens[k].deadline
          && Decrypt(s.db.dek.value.dek, s.org, s'.db.tokens[k].cipher) == None)
    && s.clients[i].Committing?
    && var op := s.clients[i].plan.op;
       && op !in s.db.results
       && op in s'.db.results
       && s'.db.results == s.db.results[op := s'.db.results[op]]
       && s'.clients[i] == Rotated(op, s'.db.results[op])
       && |s.db.tokens| <= s'.db.results[op]
       && s'.log == s.log + [Commit(op, s'.db.results[op], s.db.dek)]
  }

  // One step of a client that is inside a rotation: either it changes nothing in
  // the vault, or it is the EXEC that commits.
  lemma RotationIsAtomic(s: State, i: nat, m: Move)
    requires Inv(s)
    requires i in s.clients && Rotating(s.clients[i])
    requires Next(s, Act(i, m)).Some?
    ensures var s' := Next(s, Act(i, m)).value;
            (s'.db == s.db && s'.log == s.log) || Committed(s, s', i)
  {
    var c := s.clients[i];
    if c.Committing? && c.phase.Keys? && m == Command && !c.dirty {
      ExecCommits(s, i);
    } else {
      ReadOnly(s, i, m);
    }
    hide Committed, Inv;
  }

  lemma CommitTxKeeps(db: Db, live: set<Key>, sealed: map<Key, Cipher>, w: Wrapped, revision: nat, op: string)
    ensures var db' := CommitTx(db, live, sealed, w, revision, op);
            && db'.tokens.Keys == db.tokens.Keys && db'.index == db.index && db'.results == db.results[op := |live|]
            && forall k :: k in db'.tokens ==> db'.tokens[k].deadline == db.tokens[k].deadline
  {
  }

  lemma ExecClient(s: State, i: nat)
    requires i in s.clients && s.clients[i].Committing? && s.clients[i].phase.Keys? && !s.clients[i].dirty
    requires Next(s, Act(i, Command)).Some?
    ensures var c, s' := s.clients[i], Next(s, Act(i, Command)).value;
            && s'.clients[i] == Rotated(c.plan.op, |c.phase.live|)
            && s'.log == s.log + [Commit(c.plan.op, |c.phase.live|, s.db.dek)]
  {
    hide CommitTx, Notify;
  }

  lemma ExecCommits(s: State, i: nat)
    requires Inv(s)
    requires i in s.clients && s.clients[i].Committing? && s.clients[i].phase.Keys? && !s.clients[i].dirty
    requires Next(s, Act(i, Command)).Some?
    ensures Committed(s, Next(s, Act(i, Command)).value, i)
  {
    var c := s.clients[i];
    ExecIsAtomic(s, i);
    ExecClient(s, i);
    CommitTxKeeps(s.db, c.phase.live, c.plan.sealed, c.plan.w, s.supply, c.plan.op);
    hide Inv, Abs, Decrypt, Next, CommitTx;
    var s' := Next(s, Act(i, Command)).value;
    assert s'.db.results[c.plan.op] == |c.phase.live|;
    assert s'.db.results == s.db.results[c.plan.op := s'.db.results[c.plan.op]];
  }

  lemma ReadOnly(s: State, i: nat, m: Move)
    requires Inv(s)
    requires i in s.clients && Rotating(s.clients[i]) && Next(s, Act(i, m)).Some?
    requires var c := s.clients[i]; !(c.Committing? && c.phase.Keys? && m == Command && !c.dirty)
    ensures Next(s, Act(i, m)).value.db == s.db && Next(s, Act(i, m)).value.log == s.log
  {
    var c := s.clients[i];
    assert ClientInv(s.org, s.db, s.supply, c);
    if c.Committing? {
      CheckKeeps(s.org, s.db, s.supply, c, m);
    }
    assert s.log + [] == s.log;
  }

  // Nothing that EXEC re-encrypts opens with the old DEK, and the list of live
  // keys is complete.
  lemma ExecRetires(org: string, db: Db, supply: nat, c: Client)
    requires ClientInv(org, db, supply, c) && DbInv(org, db, supply)
    requires c.Committing? && c.phase.Keys? && !c.dirty && c.phase.todo == {}
    ensures db.tokens.Keys <= c.phase.live && db.dek.Some? && c.plan.op !in db.results
    ensures var db' := CommitTx(db, c.phase.live, c.plan.sealed, c.plan.w, supply, c.plan.op);
            forall k :: k in db'.tokens ==> Decrypt(db.dek.value.dek, org, db'.tokens[k].cipher) == None
  {
    assert PhaseInv(db, c.plan, c.phase) && PlanInv(org, db, supply, c.plan);
    var db' := CommitTx(db, c.phase.live, c.plan.sealed, c.plan.w, supply, c.plan.op);
    forall k | k in db'.tokens
      ensures k in c.phase.live && Decrypt(db.dek.value.dek, org, db'.tokens[k].cipher) == None
    {
      ExecEach(org, db, supply, c, k);
    }
  }

  lemma ExecSame(org: string, db: Db, supply: nat, c: Client)
    requires DbInv(org, db, supply) && ClientInv(org, db, supply, c)
    requires c.Committing? && !c.dirty && c.phase.Keys? && c.phase.todo == {}
    ensures Abs(org, CommitTx(db, c.phase.live, c.plan.sealed, c.plan.w, supply, c.plan.op)) == Abs(org, db)
  {
    hide DbInv, ClientInv, CommitTx, Abs, Decrypt;
    var p := c.plan;
    forall k | k in db.tokens
      ensures k in c.phase.live && k in p.sealed && db.dek.Some?
      ensures p.sealed[k].dek == p.w.dek && p.sealed[k].aad == org
      ensures Decrypt(db.dek.value.dek, org, db.tokens[k].cipher) == Some(p.sealed[k].plain)
    {
      ExecEach(org, db, supply, c, k);
    }
    CommitSame(org, db, c.phase.live, p.sealed, p.w, supply, p.op);
  }

  lemma ExecDb(s: State, i: nat)
    requires i in s.clients && s.clients[i].Committing? && s.clients[i].phase.Keys? && !s.clients[i].dirty
    requires Next(s, Act(i, Command)).Some?
    ensures var c := s.clients[i];
            && c.phase.todo == {}
            && Next(s, Act(i, Command)).value.db
               == CommitTx(s.db, c.phase.live, c.plan.sealed, c.plan.w, s.supply, c.plan.op)
  {
    hide CommitTx, Notify;
  }

  lemma ExecIsAtomic(s: State, i: nat)
    requires Inv(s)
    requires i in s.clients && s.clients[i].Committing? && s.clients[i].phase.Keys? && !s.clients[i].dirty
    requires Next(s, Act(i, Command)).Some?
    ensures var c := s.clients[i]; var db' := Next(s, Act(i, Command)).value.db;
            && db' == CommitTx(s.db, c.phase.live, c.plan.sealed, c.plan.w, s.supply, c.plan.op)
            && Abs(s.org, db') == Abs(s.org, s.db)
            && s.db.dek.Some?
            && c.plan.op !in s.db.results
            && |s.db.tokens| <= |c.phase.live|
            && (forall k :: k in db'.tokens ==>
                  Decrypt(s.db.dek.value.dek, s.org, db'.tokens[k].cipher) == None)
  {
    hide ClientInv, DbInv, CommitTx, Abs, Decrypt, Next;
    var c := s.clients[i];
    ExecDb(s, i);
    ExecRetires(s.org, s.db, s.supply, c);
    ExecSame(s.org, s.db, s.supply, c);
    SubsetSize(s.db.tokens.Keys, c.phase.live);
    assert |s.db.tokens| == |s.db.tokens.Keys|;
  }

  // The counts of the commits that a log records for one operation id.
  function Commits(log: seq<Event>, op: string): seq<nat> {
    if log == [] then []
    else
      var e := log[|log| - 1];
      Commits(log[..|log| - 1], op) + if e.Commit? && e.op == op then [e.count] else []
  }

  lemma CommitsOne(log: seq<Event>, e: Event, op: string)
    ensures Commits(log + [e], op) == Commits(log, op) + if e.Commit? && e.op == op then [e.count] else []
  {
    assert (log + [e])[..|log|] == log;
  }

  ghost predicate Recorded(s: State) {
    forall op :: Commits(s.log, op) == if op in s.db.results then [s.db.results[op]] else []
  }

  lemma RecordedStep(s: State, step: Step)
    requires Inv(s) && Recorded(s) && Next(s, step).Some?
    ensures Recorded(Next(s, step).value)
  {
    var s' := Next(s, step).value;
    StepLog(s, step);
    forall op
      ensures Commits(s'.log, op) == if op in s'.db.results then [s'.db.results[op]] else []
    {
      if s'.log != s.log {
        CommitsOne(s.log, s'.log[|s.log|], op);
      }
    }
  }

  // Outside a rotation no result is recorded and no commit is logged.
  lemma OtherLog(org: string, db: Db, supply: nat, c: Client, m: Move)
    requires ClientStep(org, db, supply, c, m).Some? && !Rotating(c)
    ensures var e := ClientStep(org, db, supply, c, m).value;
            e.db.results == db.results && (e.log == [] || (|e.log| == 1 && !e.log[0].Commit?))
  {
  }

  lemma SpawnLog(db: Db, supply: nat, m: Move)
    requires SpawnStep(db, supply, m).Some?
    ensures SpawnStep(db, supply, m).value.db == db && SpawnStep(db, supply, m).value.log == []
  {
  }

  // A step logs at most one event, and records a result exactly when it commits.
  lemma StepLog(s: State, step: Step)
    requires Inv(s) && Next(s, step).Some?
    ensures var s' := Next(s, step).value;
            || (s'.log == s.log && s'.db.results == s.db.results)
            || (|s'.log| == |s.log| + 1 && s'.log == s.log + [s'.log[|s.log|]]
                && match s'.log[|s.log|]
                   case Commit(op, n, _) => op !in s.db.results && s'.db.results == s.db.results[op := n]
                   case _ => s'.db.results == s.db.results)
  {
    hide Inv, SpawnStep, ClientStep, Abs;
    match step
    case Tick(dt, noticed) =>
    case Spawn(i, m) =>
      SpawnLog(s.db, s.supply, m);
      assert s.log + [] == s.log;
    case Act(i, m) =>
      if Rotating(s.clients[i]) {
        RotationIsAtomic(s, i, m);
      } else {
        OtherLog(s.org, s.db, s.supply, s.clients[i], m);
        assert s.log + [] == s.log;
      }
  }

  lemma {:induction false} RecordedRun(s: State, steps: seq<Step>)
    requires Inv(s) && Recorded(s) && Run(s, steps).Some?
    ensures Inv(Run(s, steps).value) && Recorded(Run(s, steps).value)
    decreases |steps|
  {
    if steps != [] {
      StepKeeps(s, steps[0]);
      RecordedStep(s, steps[0]);
      RecordedRun(Next(s, steps[0]).value, steps[1..]);
    }
  }

  // Any number of callers and retries with one operation id: at most one rotation
  // takes effect, and every caller that returned reports the count it recorded.
  lemma RotatesOnce(org: string, steps: seq<Step>, s: State, op: string)
    requires Run(Init(org), steps) == Some(s)
    ensures |Commits(s.log, op)| <= 1
    ensures op in s.db.results <==> |Commits(s.log, op)| == 1
    ensures forall i :: i in s.clients && s.clients[i].Rotated? && s.clients[i].op == op ==>
              Commits(s.log, op) == [s.clients[i].count]
  {
    RecordedRun(Init(org), steps);
    forall i | i in s.clients && s.clients[i].Rotated? && s.clients[i].op == op
      ensures Commits(s.log, op) == [s.clients[i].count]
    {
      assert ClientInv(s.org, s.db, s.supply, s.clients[i]);
    }
  }

  // A stored DEK is replaced by a rotation commit and by nothing else.
  lemma CreationNeverOverwrites(s: State, step: Step)
    requires Inv(s) && Next(s, step).Some? && s.db.dek.Some?
    ensures var s' := Next(s, step).value;
            || s'.db.dek == s.db.dek
            || exists op, n :: s'.log == s.log + [Commit(op, n, s.db.dek)]
  {
    hide Inv, SpawnStep, ClientStep, Abs;
    match step
    case Tick(dt, noticed) =>
    case Spawn(i, m) => SpawnLog(s.db, s.supply, m);
    case Act(i, m) =>
      if Rotating(s.clients[i]) {
        RotationIsAtomic(s, i, m);
      } else {
        OtherDek(s, i, m);
      }
  }

  lemma OtherDek(s: State, i: nat, m: Move)
    requires Inv(s) && s.db.dek.Some?
    requires i in s.clients && !Rotating(s.clients[i]) && Next(s, Act(i, m)).Some?
    ensures Next(s, Act(i, m)).value.db.dek == s.db.dek
  {
    assert ClientInv(s.org, s.db, s.supply, s.clients[i]);
  }

  ghost predicate OneDek(s: State) {
    forall i :: i in s.clients && s.clients[i].HasDek? ==>
      s.db.dek.Some? && s.clients[i].key == s.db.dek.value.dek
  }

  predicate HoldsDek(c: Client, db: Db) {
    c.HasDek? ==> db.dek.Some? && c.key == db.dek.value.dek
  }

  lemma CreatorHolds(org: string, db: Db, supply: nat, c: Client, m: Move)
    requires ClientStep(org, db, supply, c, m).Some?
    ensures var e := ClientStep(org, db, supply, c, m).value; HoldsDek(e.client, e.db)
  {
  }

  lemma SpawnHolds(db: Db, supply: nat, m: Move)
    requires SpawnStep(db, supply, m).Some?
    ensures var e := SpawnStep(db, supply, m).value; HoldsDek(e.client, e.db)
  {
  }

  lemma OneDekStep(s: State, step: Step)
    requires Inv(s) && OneDek(s) && Next(s, step).Some?
    requires forall op :: Commits(Next(s, step).value.log, op) == []
    ensures OneDek(Next(s, step).value)
  {
    hide Inv, SpawnStep, ClientStep, AdvanceTo, Expired, Notify;
    var s' := Next(s, step).value;
    if s.db.dek.Some? {
      CreationNeverOverwrites(s, step);
      if s'.db.dek != s.db.dek {
        var op, n :| s'.log == s.log + [Commit(op, n, s.db.dek)];
        CommitsOne(s.log, Commit(op, n, s.db.dek), op);
        assert false;
      }
    }
    if step.Spawn? { SpawnHolds(s.db, s.supply, step.m); }
    if step.Act? { CreatorHolds(s.org, s.db, s.supply, s.clients[step.i], step.m); }
    forall j | j in s'.clients
      ensures HoldsDek(s'.clients[j], s'.db)
    {
      if j in s.clients && !(step.Act? && step.i == j) {
        DekKept(s, step, j);
      }
    }
  }

  // A client other than the one that acts keeps the DEK it returned, if any.
  lemma DekKept(s: State, step: Step, j: nat)
    requires j in s.clients && Next(s, step).Some? && !(step.Act? && step.i == j)
    ensures j in Next(s, step).value.clients
    ensures Next(s, step).value.clients[j].HasDek? ==> Next(s, step).value.clients[j] == s.clients[j]
  {
    hide SpawnStep, ClientStep, AdvanceTo, Watches;
  }

  // Commits only accumulate along a run.
  lemma {:induction false} CommitsGrow(s: State, steps: seq<Step>, op: string)
    requires Inv(s) && Run(s, steps).Some?
    ensures |Commits(s.log, op)| <= |Commits(Run(s, steps).value.log, op)|
    decreases |steps|
  {
    if steps != [] {
      var s' := Next(s, steps[0]).value;
      StepLog(s, steps[0]);
      if s'.log != s.log {
        CommitsOne(s.log, s'.log[|s.log|], op);
      }
      StepKeeps(s, steps[0]);
      CommitsGrow(s', steps[1..], op);
    }
  }

  lemma {:induction false} OneDekRun(s: State, steps: seq<Step>)
    requires Inv(s) && OneDek(s) && Run(s, steps).Some?
    requires forall op :: Commits(Run(s, steps).value.log, op) == []
    ensures OneDek(Run(s, steps).value)
    decreases |steps|
  {
    if steps != [] {
      var s' := Next(s, steps[0]).value;
      StepKeeps(s, steps[0]);
      forall op
        ensures Commits(s'.log, op) == []
      {
        CommitsGrow(s', steps[1..], op);
      }
      OneDekStep(s, steps[0]);
      OneDekRun(s', steps[1..]);
    }
  }

  // Any number of concurrent get_or_create_dek calls, as long as no rotation
  // commits, return the same DEK: the one that is stored.
  lemma CreatorsConverge(org: string, steps: seq<Step>, s: State, i: nat, j: nat)
    requires Run(Init(org), steps) == Some(s)
    requires forall op :: Commits(s.log, op) == []
    requires i in s.clients && s.clients[i].HasDek?
    requires j in s.clients && s.clients[j].HasDek?
    ensures s.clients[i].key == s.clients[j].key
    ensures s.db.dek.Some? && s.db.dek.value.dek == s.clients[i].key
  {
    OneDekRun(Init(org), steps);
  }
}
