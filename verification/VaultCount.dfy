// What a rotation reports: the number of tokens that its EXEC finds, as long as no
// token expires under its WATCH.
module VaultCount {
  import opened Wrappers
  import opened VaultStore
  import opened VaultProtocol
  import opened VaultSafety
  import opened VaultExpiry

  function LiveOf(c: Client): set<Key>
    requires c.Committing?
  {
    match c.phase
    case Keys(_, live) => live
    case Ttl(_, _, live) => live
    case _ => {}
  }

  // While the WATCH is clean, every token checked so far is still there.
  ghost predicate AllThere(c: Client, db: Db) {
    c.Committing? && !c.dirty ==> LiveOf(c) <= db.tokens.Keys
  }

  predicate InSnapshot(c: Client) {
    c.Committing? ==> LiveOf(c) <= c.plan.snap.tokens.Keys
  }

  // A command of another client that takes away a checked token dirties the WATCH.
  lemma OthersThere(org: string, db: Db, supply: nat, other: Client, m: Move, c: Client)
    requires AllThere(c, db) && InSnapshot(c) && ClientStep(org, db, supply, other, m).Some?
    ensures var e := ClientStep(org, db, supply, other, m).value; AllThere(Notify(c, e.touched), e.db)
  {
    var e := ClientStep(org, db, supply, other, m).value;
    TokensAfter(org, db, supply, other, m);
    hide ClientStep;
    if c.Committing? && !c.dirty && !Watches(c, e.touched) {
      forall k | k in LiveOf(c) ensures k in e.db.tokens {
        assert k in c.plan.snap.tokens.Keys && k !in e.touched.keys * c.plan.snap.tokens.Keys;
      }
    }
  }

  // A command removes touched tokens alone.
  lemma TokensAfter(org: string, db: Db, supply: nat, c: Client, m: Move)
    requires ClientStep(org, db, supply, c, m).Some?
    ensures var e := ClientStep(org, db, supply, c, m).value; db.tokens.Keys - e.touched.keys <= e.db.tokens.Keys
  {
    Writes(org, db, supply, c, m);
    if c.Unlinking? {
      TouchesUnlinked(org, db, supply, c, m);
    }
    hide ClientStep;
  }

  lemma TouchesUnlinked(org: string, db: Db, supply: nat, c: Client, m: Move)
    requires ClientStep(org, db, supply, c, m).Some? && c.Unlinking?
    ensures ClientStep(org, db, supply, c, m).value.touched.keys == KeysOf(c.req, c.members)
  {
    hide UnlinkTx;
  }

  lemma OwnThere(org: string, db: Db, supply: nat, c: Client, m: Move)
    requires AllThere(c, db) && ClientStep(org, db, supply, c, m).Some?
    ensures var e := ClientStep(org, db, supply, c, m).value; AllThere(e.client, e.db)
  {
    if c.Committing? {
      CommitThere(db, supply, c, m);
    } else {
      NewlyCommitting(org, db, supply, c, m);
    }
    hide ClientStep;
  }

  lemma CommitThere(db: Db, supply: nat, c: Client, m: Move)
    requires c.Committing? && AllThere(c, db) && CommitStep(db, supply, c, m).Some?
    ensures var e := CommitStep(db, supply, c, m).value; AllThere(e.client, e.db)
  {
    hide CommitTx;
  }

  // A rotation starts to commit with nothing checked.
  lemma NewlyCommitting(org: string, db: Db, supply: nat, c: Client, m: Move)
    requires !c.Committing? && ClientStep(org, db, supply, c, m).Some?
    ensures var c' := ClientStep(org, db, supply, c, m).value.client; c'.Committing? ==> c'.phase.Ready?
  {
    hide Take, Prepared, ScanComplete, AllOpen, FreshNonces, UnlinkTx, DropSetTx, RegisterTx, StoreTx;
  }

  lemma ThereStep(s: State, step: Step, j: nat)
    requires Inv(s) && Next(s, step).Some? && !step.Tick? && j in s.clients && AllThere(s.clients[j], s.db)
    ensures j in Next(s, step).value.clients && AllThere(Next(s, step).value.clients[j], Next(s, step).value.db)
  {
    var c := s.clients[j];
    assert ClientInv(s.org, s.db, s.supply, c);
    assert InSnapshot(c);
    if step.Act? {
      if step.i == j {
        OwnThere(s.org, s.db, s.supply, c, step.m);
      } else {
        OthersThere(s.org, s.db, s.supply, s.clients[step.i], step.m, c);
      }
    } else {
      SpawnChangesNothing(s, step);
      SpawnQuiet(s.db, s.supply, step.m);
    }
    hide ClientStep, SpawnStep, Inv, AllThere, Notify;
    if step.Spawn? {
      NotTouched(c);
    }
  }

  lemma SpawnQuiet(db: Db, supply: nat, m: Move)
    requires SpawnStep(db, supply, m).Some?
    ensures SpawnStep(db, supply, m).value.touched == NOTHING
  {
  }

  lemma NotTouched(c: Client)
    ensures Notify(c, NOTHING) == c
  {
  }

  lemma {:induction false} ThereRun(s: State, steps: seq<Step>, j: nat)
    requires Inv(s) && Run(s, steps).Some? && j in s.clients && AllThere(s.clients[j], s.db)
    requires forall n :: 0 <= n < |steps| ==> !steps[n].Tick?
    ensures var s' := Run(s, steps).value; Inv(s') && j in s'.clients && AllThere(s'.clients[j], s'.db)
    decreases |steps|
  {
    hide Next, Inv, AllThere;
    if steps != [] {
      StepKeeps(s, steps[0]);
      ThereStep(s, steps[0], j);
      ThereRun(Next(s, steps[0]).value, steps[1..], j);
    }
  }

  // A rotation that commits reports exactly the tokens that are then in the vault,
  // whatever other clients store or flush since its WATCH, if no time passes.
  lemma CommitCountsLive(org: string, before: seq<Step>, s0: State, j: nat, during: seq<Step>, s: State)
    requires Run(Init(org), before) == Some(s0) && Run(s0, during) == Some(s)
    requires forall n :: 0 <= n < |during| ==> !during[n].Tick?
    requires j in s0.clients && s0.clients[j].Committing? && s0.clients[j].phase.Watching?
    requires Next(s, Act(j, Command)).Some? && |Next(s, Act(j, Command)).value.log| > |s.log|
    requires j in s.clients && s.clients[j].Committing?
    ensures var s' := Next(s, Act(j, Command)).value;
            j in s'.clients && s'.clients[j] == Rotated(s.clients[j].plan.op, |s.db.tokens|)
  {
    hide Run, Inv;
    RunKeeps(Init(org), before) by { StartInv(org); }
    ThereRun(s0, during, j);
    CommitsAll(s, j);
  }

  lemma StartInv(org: string)
    ensures Inv(Init(org))
  {
  }

  lemma CommitsAll(s: State, j: nat)
    requires Inv(s) && j in s.clients && s.clients[j].Committing? && AllThere(s.clients[j], s.db)
    requires Next(s, Act(j, Command)).Some? && |Next(s, Act(j, Command)).value.log| > |s.log|
    ensures var s' := Next(s, Act(j, Command)).value;
            j in s'.clients && s'.clients[j] == Rotated(s.clients[j].plan.op, |s.db.tokens|)
  {
    var c := s.clients[j];
    assert ClientInv(s.org, s.db, s.supply, c);
    hide ClientInv, Inv, CommitTx, Notify;
    CommitLogs(s.db, s.supply, c);
    forall k | k in s.db.tokens ensures k in LiveOf(c) {
      ExecEach(s.org, s.db, s.supply, c, k);
    }
    assert LiveOf(c) == s.db.tokens.Keys;
  }

  // Only the EXEC writes to the log.
  lemma CommitLogs(db: Db, supply: nat, c: Client)
    requires c.Committing? && CommitStep(db, supply, c, Command).Some?
    requires CommitStep(db, supply, c, Command).value.log != []
    ensures !c.dirty && c.phase.Keys? && c.phase.todo == {}
    ensures CommitStep(db, supply, c, Command).value.client == Rotated(c.plan.op, |c.phase.live|)
  {
    hide CommitTx;
  }
}
