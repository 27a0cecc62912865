// A rotation that is left alone commits, from every reachable state: the safety
// theorems do not hold merely because the guards block everything.
module VaultProgress {
  import opened Wrappers
  import opened VaultStore
  import opened VaultProtocol
  import opened VaultSafety

  lemma {:induction false} RunConcat(s: State, a: seq<Step>, b: seq<Step>)
    requires Run(s, a).Some?
    ensures Run(s, a + b) == Run(Run(s, a).value, b)
    decreases |a|
  {
    if a == [] {
      assert a + b == b;
    } else {
      assert (a + b)[0] == a[0] && (a + b)[1..] == a[1..] + b;
      RunConcat(Next(s, a[0]).value, a[1..], b);
    }
  }

  // A run from s to s' of these steps only.
  ghost predicate Reaches(s: State, s': State, ok: iset<Step>) {
    exists steps :: Run(s, steps) == Some(s') && Among(steps, ok)
  }

  ghost predicate Among(steps: seq<Step>, ok: iset<Step>) {
    forall n :: 0 <= n < |steps| ==> steps[n] in ok
  }

  // The steps of client i.
  ghost function Own(i: nat): iset<Step> {
    iset step: Step | (step.Spawn? && step.i == i) || (step.Act? && step.i == i)
  }

  lemma ReachesThen(s: State, s': State, step: Step, ok: iset<Step>)
    requires Reaches(s, s', ok) && Next(s', step).Some? && step in ok
    ensures Reaches(s, Next(s', step).value, ok)
  {
    var steps :| Run(s, steps) == Some(s') && Among(steps, ok);
    RunConcat(s, steps, [step]);
    assert [step][1..] == [];
    assert Run(s', [step]) == Next(s', step);
    assert Among(steps + [step], ok);
  }

  lemma ReachesSelf(s: State, ok: iset<Step>)
    ensures Reaches(s, s, ok)
  {
    assert Run(s, []) == Some(s) && Among([], ok);
  }

  lemma ReachesOn(s: State, s1: State, s2: State, ok: iset<Step>)
    requires Reaches(s, s1, ok) && Reaches(s1, s2, ok)
    ensures Reaches(s, s2, ok)
  {
    var a :| Run(s, a) == Some(s1) && Among(a, ok);
    var b :| Run(s1, b) == Some(s2) && Among(b, ok);
    RunConcat(s, a, b);
    assert Among(a + b, ok);
  }

  lemma ReachesWider(s: State, s': State, ok: iset<Step>, more: iset<Step>)
    requires Reaches(s, s', ok) && ok <= more
    ensures Reaches(s, s', more)
  {
    var steps :| Run(s, steps) == Some(s') && Among(steps, ok);
    assert Among(steps, more);
  }

  // The state s, but with client i at c; nothing else but the supply differs.
  function Moved(s: State, i: nat, supply: nat, c: Client): State {
    s.(supply := supply, clients := s.clients[i := c])
  }

  lemma QuietApply(s: State, i: nat, supply: nat, c: Client)
    ensures Apply(s, i, Quietly(s.db, supply, c).value) == Moved(s, i, supply, c)
  {
    assert (map j | j in s.clients :: Notify(s.clients[j], NOTHING)) == s.clients;
    assert s.log + [] == s.log;
  }

  // One more command of client i that leaves the database alone.
  lemma Go(s: State, i: nat, supply: nat, c: Client, m: Move, supply': nat, c': Client, ok: iset<Step>)
    requires Reaches(s, Moved(s, i, supply, c), ok) && Act(i, m) in ok
    requires ClientStep(s.org, s.db, supply, c, m) == Quietly(s.db, supply', c')
    ensures Reaches(s, Moved(s, i, supply', c'), ok)
  {
    hide Reaches, ClientStep;
    var now := Moved(s, i, supply, c);
    QuietApply(now, i, supply', c');
    ReachesThen(s, now, Act(i, m), ok);
    assert now.clients[i := c'] == s.clients[i := c'];
  }

  function Ciphers(db: Db, ks: set<Key>): map<Key, Cipher> {
    map k | k in db.tokens && k in ks :: db.tokens[k].cipher
  }

  function Scan(op: string, db: Db, done: set<Key>): Client {
    Scanning(op, 0, Snapshot(db.dek, db.revision, Ciphers(db, done)), Ciphers(db, db.tokens.Keys))
  }

  lemma {:induction false} ScanAll(s: State, i: nat, op: string, done: set<Key>, todo: set<Key>)
    requires done + todo == s.db.tokens.Keys
    requires Reaches(s, Moved(s, i, s.supply, Scan(op, s.db, done)), Own(i))
    ensures Reaches(s, Moved(s, i, s.supply, Scan(op, s.db, s.db.tokens.Keys)), Own(i))
    decreases todo
  {
    hide Reaches, Moved;
    if todo == {} {
      assert done == s.db.tokens.Keys;
    } else {
      var k :| k in todo;
      assert k in s.db.tokens;
      assert Ciphers(s.db, done)[k := s.db.tokens[k].cipher] == Ciphers(s.db, done + {k});
      Go(s, i, s.supply, Scan(op, s.db, done), Fetch(k), s.supply, Scan(op, s.db, done + {k}), Own(i));
      assert done + {k} + (todo - {k}) == s.db.tokens.Keys;
      ScanAll(s, i, op, done + {k}, todo - {k});
    }
  }

  lemma {:induction false} Enumerate(ks: set<Key>, from: nat) returns (nonces: map<Key, nat>)
    ensures FreshNonces(nonces, ks, from, from + |ks|) && |nonces| == |ks|
    decreases ks
  {
    if ks == {} {
      nonces := map[];
    } else {
      var k :| k in ks;
      var rest := Enumerate(ks - {k}, from);
      nonces := rest[k := from + |ks| - 1];
      assert nonces.Keys == ks;
      assert |nonces| == |nonces.Keys|;
    }
  }

  lemma {:induction false} CheckAll(s: State, i: nat, p: Plan, supply: nat, todo: set<Key>, live: set<Key>)
    requires p.snap.tokens == Ciphers(s.db, s.db.tokens.Keys) && todo + live == s.db.tokens.Keys
    requires Reaches(s, Moved(s, i, supply, Committing(p, Keys(todo, live), false)), Own(i))
    ensures Reaches(s, Moved(s, i, supply, Committing(p, Keys({}, s.db.tokens.Keys), false)), Own(i))
    decreases todo
  {
    hide Reaches, Moved;
    if todo == {} {
      assert live == s.db.tokens.Keys;
    } else {
      var k :| k in todo;
      assert k in s.db.tokens;
      var mid, next := Ttl(k, todo - {k}, live), Keys(todo - {k}, live + {k});
      Go(s, i, supply, Committing(p, Keys(todo, live), false), Fetch(k), supply, Committing(p, mid, false), Own(i));
      Go(s, i, supply, Committing(p, mid, false), Command, supply, Committing(p, next, false), Own(i));
      assert todo - {k} + (live + {k}) == s.db.tokens.Keys;
      CheckAll(s, i, p, supply, todo - {k}, live + {k});
    }
  }

  lemma Begin(s: State, i: nat, op: string)
    requires i !in s.clients && op !in s.db.results
    ensures Reaches(s, Moved(s, i, s.supply, Heading(op, 0)), Own(i))
  {
    QuietApply(s, i, s.supply, Heading(op, 0));
    ReachesSelf(s, Own(i));
    ReachesThen(s, s, Spawn(i, Rotate(op)), Own(i));
  }

  // From the first command of a rotation to the end of its scan.
  lemma SnapshotRun(s: State, i: nat, op: string)
    requires i !in s.clients && op !in s.db.results
    ensures Reaches(s, Moved(s, i, s.supply, Scan(op, s.db, s.db.tokens.Keys)), Own(i))
  {
    hide Reaches, Moved;
    Begin(s, i, op);
    var opening := Opening(op, 0, s.db.dek, s.db.revision);
    Go(s, i, s.supply, Heading(op, 0), Command, s.supply, opening, Own(i));
    assert (map k | k in s.db.tokens :: s.db.tokens[k].cipher) == Ciphers(s.db, s.db.tokens.Keys);
    assert Ciphers(s.db, {}) == map[];
    Go(s, i, s.supply, opening, Command, s.supply, Scan(op, s.db, {}), Own(i));
    ScanAll(s, i, op, {}, s.db.tokens.Keys);
  }

  // WATCH and the checks, up to EXEC.
  lemma CommitRun(s: State, i: nat, p: Plan, supply: nat)
    requires Reaches(s, Moved(s, i, supply, Committing(p, Ready, false)), Own(i))
    requires p.op !in s.db.results && p.snap == Snapshot(s.db.dek, s.db.revision, Ciphers(s.db, s.db.tokens.Keys))
    ensures Reaches(s, Moved(s, i, supply, Committing(p, Keys({}, s.db.tokens.Keys), false)), Own(i))
  {
    hide Reaches, Moved;
    Go(s, i, supply, Committing(p, Ready, false), Command, supply, Committing(p, Watching, false), Own(i));
    Go(s, i, supply, Committing(p, Watching, false), Command, supply, Committing(p, NoResult, false), Own(i));
    assert p.snap.tokens.Keys == s.db.tokens.Keys;
    var loop := Committing(p, Keys(s.db.tokens.Keys, {}), false);
    Go(s, i, supply, Committing(p, NoResult, false), Command, supply, loop, Own(i));
    CheckAll(s, i, p, supply, s.db.tokens.Keys, {});
  }

  // Decrypt and seal again in memory.
  lemma PrepareStep(org: string, db: Db, supply: nat, op: string, nonces: map<Key, nat>)
    requires DbInv(org, db, supply) && db.dek.Some?
    requires FreshNonces(nonces, db.tokens.Keys, supply + 2, supply + 2 + |nonces|)
    ensures var all := Ciphers(db, db.tokens.Keys);
            && all.Keys == nonces.Keys
            && SnapshotStep(org, db, supply, Scan(op, db, db.tokens.Keys), Prepare(nonces))
                 == Quietly(db, supply + 2 + |nonces|,
                            Committing(Prepared(org, supply, op, 0, Snapshot(db.dek, db.revision, all), nonces),
                                Ready, false))
  {
    var all := Ciphers(db, db.tokens.Keys);
    NonceKeys(nonces, db.tokens.Keys, supply + 2, supply + 2 + |nonces|);
    AllScanned(org, db, supply);
    hide Prepared, FreshNonces, ScanComplete, AllOpen, DbInv, Ciphers, SnapshotStep;
    SealNow(org, db, supply, op, Snapshot(db.dek, db.revision, all), all, nonces);
  }

  // A complete scan that opens goes on to the commit.
  lemma SealNow(org: string, db: Db, supply: nat, op: string, snap: Snapshot, start: map<Key, Cipher>,
                nonces: map<Key, nat>)
    requires snap.dek.Some? && nonces.Keys == snap.tokens.Keys
    requires ScanComplete(db, start, snap.tokens) && AllOpen(org, snap.dek.value, snap.tokens)
    requires FreshNonces(nonces, snap.tokens.Keys, supply + 2, supply + 2 + |nonces|)
    ensures SnapshotStep(org, db, supply, Scanning(op, 0, snap, start), Prepare(nonces))
         == Quietly(db, supply + 2 + |nonces|, Committing(Prepared(org, supply, op, 0, snap, nonces), Ready, false))
  {
    hide Prepared, FreshNonces, ScanComplete, AllOpen;
  }

  // The complete scan of an undisturbed vault, every token of which opens.
  lemma AllScanned(org: string, db: Db, supply: nat)
    requires DbInv(org, db, supply) && db.dek.Some?
    ensures var all := Ciphers(db, db.tokens.Keys);
            all.Keys == db.tokens.Keys && ScanComplete(db, all, all) && AllOpen(org, db.dek.value, all)
  {
  }

  lemma NonceKeys(nonces: map<Key, nat>, ks: set<Key>, from: nat, to: nat)
    requires FreshNonces(nonces, ks, from, to)
    ensures nonces.Keys == ks
  {
  }

  lemma PrepareRun(s: State, i: nat, op: string) returns (p: Plan, top: nat)
    requires DbInv(s.org, s.db, s.supply) && s.db.dek.Some?
    requires Reaches(s, Moved(s, i, s.supply, Scan(op, s.db, s.db.tokens.Keys)), Own(i))
    ensures p.op == op && p.snap == Snapshot(s.db.dek, s.db.revision, Ciphers(s.db, s.db.tokens.Keys))
    ensures Reaches(s, Moved(s, i, top, Committing(p, Ready, false)), Own(i))
  {
    hide Reaches, Moved, SnapshotStep, DbInv, FreshNonces;
    var nonces := Enumerate(s.db.tokens.Keys, s.supply + 2);
    PrepareStep(s.org, s.db, s.supply, op, nonces);
    top := s.supply + 2 + |nonces|;
    p := Prepared(s.org, s.supply, op, 0, Snapshot(s.db.dek, s.db.revision, Ciphers(s.db, s.db.tokens.Keys)), nonces);
    Go(s, i, s.supply, Scan(op, s.db, s.db.tokens.Keys), Prepare(nonces), top, Committing(p, Ready, false), Own(i));
  }

  lemma ExecStep(s: State, i: nat, p: Plan, top: nat)
    requires Reaches(s, Moved(s, i, top, Committing(p, Keys({}, s.db.tokens.Keys), false)), Own(i))
    ensures exists s' :: Reaches(s, s', Own(i)) && i in s'.clients && s'.clients[i] == Rotated(p.op, |s.db.tokens|)
  {
    hide Reaches, CommitTx;
    var last := Moved(s, i, top, Committing(p, Keys({}, s.db.tokens.Keys), false));
    assert |s.db.tokens.Keys| == |s.db.tokens|;
    ReachesThen(s, last, Act(i, Command), Own(i));
    assert Next(last, Act(i, Command)).value.clients[i] == Rotated(p.op, |s.db.tokens|);
  }

  // From any reachable state with a DEK, a new rotation commits by its own steps,
  // if no other client takes one, and reports the number of live tokens.
  lemma AloneCommits(s: State, i: nat, op: string)
    requires Inv(s) && s.db.dek.Some? && i !in s.clients && op !in s.db.results
    ensures exists s' :: Reaches(s, s', Own(i)) && i in s'.clients && s'.clients[i] == Rotated(op, |s.db.tokens|)
  {
    hide Reaches, Moved;
    SnapshotRun(s, i, op);
    var p, top := PrepareRun(s, i, op);
    CommitRun(s, i, p, top);
    ExecStep(s, i, p, top);
  }
}
