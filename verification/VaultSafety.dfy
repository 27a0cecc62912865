// Safety of the vault protocol over every run: the encrypted vault implements a
// plain map, and a DEK rotation does not change that map at all.
module VaultSafety {
  import opened Wrappers
  import opened VaultStore
  import opened VaultProtocol

  // The plain vault: a map from token key to plaintext and expiry.
  function Play(m: map<Key, Plain>, e: Event): map<Key, Plain> {
    match e
    case Put(k, text, deadline) => m[k := Plain(Some(text), deadline)]
    case Drop(ks) => m - ks
    case Commit(_, _, _) => m
  }

  function Replay(log: seq<Event>): map<Key, Plain> {
    if log == [] then map[] else Play(Replay(log[..|log| - 1]), log[|log| - 1])
  }

  lemma ReplayOne(log: seq<Event>, e: Event)
    ensures Replay(log + [e]) == Play(Replay(log), e)
  {
    assert (log + [e])[..|log|] == log;
  }

  ghost predicate DbInv(org: string, db: Db, supply: nat) {
    && (forall k :: k in db.tokens ==>
          && db.dek.Some?
          && db.tokens[k].cipher.dek == db.dek.value.dek
          && db.tokens[k].cipher.aad == org)
    && (db.dek.Some? ==> db.dek.value.dek < supply)
    && (db.revision.Some? ==> db.revision.value < supply)
  }

  // Nothing was written since the head of the snapshot was read.
  predicate Current(db: Db, snap: Snapshot) {
    db.dek == snap.dek && db.revision == snap.revision
  }

  // What a snapshot says about the live tokens, if nothing was written since.
  ghost predicate Found(db: Db, found: map<Key, Cipher>) {
    forall k :: k in db.tokens && k in found ==> found[k] == db.tokens[k].cipher
  }

  ghost predicate Covers(db: Db, found: map<Key, Cipher>) {
    forall k :: k in db.tokens ==> k in found && found[k] == db.tokens[k].cipher
  }

  predicate Known(supply: nat, snap: Snapshot) {
    && (snap.dek.Some? ==> snap.dek.value.dek < supply)
    && (snap.revision.Some? ==> snap.revision.value < supply)
  }

  ghost predicate PlanInv(org: string, db: Db, supply: nat, p: Plan) {
    && Known(supply, p.snap)
    && p.snap.dek.Some? && p.w.dek != p.snap.dek.value.dek && p.w.dek < supply
    && p.sealed.Keys == p.snap.tokens.Keys
    && (forall k :: k in p.sealed ==>
          && p.sealed[k].dek == p.w.dek && p.sealed[k].aad == org
          && Decrypt(p.snap.dek.value.dek, org, p.snap.tokens[k]) == Some(p.sealed[k].plain))
    && (Current(db, p.snap) ==> Covers(db, p.snap.tokens))
  }

  ghost predicate PhaseInv(db: Db, p: Plan, phase: Phase) {
    match phase
    case Ready => true
    case Watching => true
    case NoResult => p.op !in db.results
    case Keys(todo, live) =>
      && p.op !in db.results && Current(db, p.snap)
      && db.tokens.Keys <= todo + live
    case Ttl(k, todo, live) =>
      && p.op !in db.results && Current(db, p.snap)
      && db.tokens.Keys <= todo + live + {k}
  }

  predicate PhaseKeys(p: Plan, phase: Phase) {
    match phase
    case Keys(todo, live) => todo + live <= p.snap.tokens.Keys
    case Ttl(k, todo, live) => todo + live + {k} <= p.snap.tokens.Keys
    case _ => true
  }

  ghost predicate ClientInv(org: string, db: Db, supply: nat, c: Client) {
    match c
    case Storing(call, job, cipher, tries, guard) =>
      && Decrypt(call.w.dek, org, cipher) == Some(job.plain)
      && (guard == Checked(false) ==> db.dek == Some(call.w))
    case Creating(cand, tries, watch) =>
      && cand.dek < supply
      && (watch == Checked(false) ==> db.dek == None)
    case Opening(op, tries, head, revision) => Known(supply, Snapshot(head, revision, map[]))
    case Scanning(op, tries, snap, start) =>
      && Known(supply, snap)
      && (Current(db, snap) ==> Covers(db, start) && Found(db, snap.tokens))
    case Committing(p, phase, dirty) =>
      PlanInv(org, db, supply, p) && PhaseKeys(p, phase) && (!dirty ==> PhaseInv(db, p, phase))
    case Rotated(op, n) => op in db.results && db.results[op] == n
    case _ => true
  }

  // How one command may change the database, as seen by every other client.
  ghost predicate Evolves(db: Db, supply: nat, db': Db, supply': nat, t: Touched) {
    && supply <= supply'
    && (!t.dek ==> db'.dek == db.dek)
    && (!t.revision ==> db'.revision == db.revision)
    && (forall op :: op in db.results ==> op in db'.results && db'.results[op] == db.results[op])
    && (forall op :: op in db'.results && t.op != Some(op) ==> op in db.results)
    && (|| (db'.revision.Some? && supply <= db'.revision.value)
        || (db'.revision == db.revision
            && (db'.dek != db.dek ==> db'.tokens == map[])
            && (forall k :: k in db'.tokens ==>
                  k in db.tokens && db'.tokens[k].cipher == db.tokens[k].cipher)))
  }

  // Any client's invariant survives any other client's command.
  lemma Stable(org: string, db: Db, supply: nat, db': Db, supply': nat, t: Touched, c: Client)
    requires DbInv(org, db, supply)
    requires ClientInv(org, db, supply, c)
    requires Evolves(db, supply, db', supply', t)
    ensures ClientInv(org, db', supply', Notify(c, t))
  {
    if c.Committing? {
      StablePlan(org, db, supply, db', supply', t, c);
    } else {
      hide PlanInv, PhaseInv, PhaseKeys;
    }
  }

  lemma StablePlan(org: string, db: Db, supply: nat, db': Db, supply': nat, t: Touched, c: Client)
    requires DbInv(org, db, supply) && c.Committing? && ClientInv(org, db, supply, c)
    requires Evolves(db, supply, db', supply', t)
    ensures ClientInv(org, db', supply', Notify(c, t))
  {
    hide Decrypt;
  }

  ghost predicate Good(org: string, db: Db, supply: nat, e: Effect) {
    && DbInv(org, e.db, e.supply)
    && ClientInv(org, e.db, e.supply, e.client)
    && Evolves(db, supply, e.db, e.supply, e.touched)
    && |e.log| <= 1
    && Abs(org, e.db) == (if e.log == [] then Abs(org, db) else Play(Abs(org, db), e.log[0]))
  }

  lemma SpawnKeeps(org: string, db: Db, supply: nat, m: Move)
    requires DbInv(org, db, supply)
    requires SpawnStep(db, supply, m).Some?
    ensures Good(org, db, supply, SpawnStep(db, supply, m).value)
  {
  }

  // A command that only reads, and leaves its client well.
  lemma QuietKeeps(org: string, db: Db, supply: nat, supply': nat, c: Client)
    requires DbInv(org, db, supply) && supply <= supply' && ClientInv(org, db, supply', c)
    ensures Good(org, db, supply, Quietly(db, supply', c).value)
  {
    hide ClientInv;
  }

  // A token sealed under the stored DEK enters the vault.
  lemma StoreGood(org: string, db: Db, supply: nat, k: Key, cipher: Cipher, ttl: nat, call: Call, job: Job)
    requires DbInv(org, db, supply) && db.dek.Some? && cipher.dek == db.dek.value.dek && cipher.aad == org
    ensures Good(org, db, supply,
                 Effect(StoreTx(db, k, cipher, ttl, supply), supply + 1, Registering(call, job),
                        Touched(false, true, None, {k}), [Put(k, cipher.plain, db.now + ttl)]))
  {
    var db' := StoreTx(db, k, cipher, ttl, supply);
    assert Abs(org, db') == Abs(org, db)[k := Plain(Some(cipher.plain), db.now + ttl)];
  }

  // EXEC of a guarded store: the watched DEK is still the one checked.
  lemma StoreKeeps(org: string, db: Db, supply: nat, c: Client)
    requires DbInv(org, db, supply) && ClientInv(org, db, supply, c)
    requires c.Storing? && c.guard == Checked(false)
    ensures Good(org, db, supply, TokenizeStep(org, db, supply, c, Command).value)
  {
    StoreGood(org, db, supply, Key(c.call.req, c.job.hash), c.cipher, c.call.ttl, c.call, c.job);
    hide Good, DbInv, StoreTx;
  }

  lemma RegisterKeeps(org: string, db: Db, supply: nat, c: Client)
    requires DbInv(org, db, supply) && c.Registering?
    ensures Good(org, db, supply, TokenizeStep(org, db, supply, c, Command).value)
  {
    var e := TokenizeStep(org, db, supply, c, Command).value;
    assert Abs(org, e.db) == Abs(org, db);
  }

  lemma TokenizeKeeps(org: string, db: Db, supply: nat, c: Client, m: Move)
    requires DbInv(org, db, supply) && ClientInv(org, db, supply, c)
    requires c.Holding? || c.Storing? || c.Rereading? || c.Registering?
    requires TokenizeStep(org, db, supply, c, m).Some?
    ensures Good(org, db, supply, TokenizeStep(org, db, supply, c, m).value)
  {
    if c.Storing? && c.guard == Checked(false) {
      StoreKeeps(org, db, supply, c);
    } else if c.Registering? {
      RegisterKeeps(org, db, supply, c);
    } else {
      hide Good, DbInv;
      var e := TokenizeStep(org, db, supply, c, m).value;
      QuietKeeps(org, db, supply, e.supply, e.client);
    }
  }

  lemma CreateKeeps(org: string, db: Db, supply: nat, c: Client, m: Move)
    requires DbInv(org, db, supply) && ClientInv(org, db, supply, c)
    requires c.Creating?
    requires CreateStep(db, supply, c, m).Some?
    ensures Good(org, db, supply, CreateStep(db, supply, c, m).value)
  {
    var e := CreateStep(db, supply, c, m).value;
    if c.watch == Checked(false) {
      FirstDek(org, db, supply, c.cand);
    } else {
      hide Good, DbInv;
      QuietKeeps(org, db, supply, supply, e.client);
    }
  }

  // The first DEK is written only while no token is live.
  lemma FirstDek(org: string, db: Db, supply: nat, w: Wrapped)
    requires DbInv(org, db, supply) && db.dek == None && w.dek < supply
    ensures Good(org, db, supply, Effect(db.(dek := Some(w)), supply, HasDek(w.dek), Touched(true, false, None,
        {}), []))
  {
    assert db.tokens == map[];
  }

  lemma SnapshotKeeps(org: string, db: Db, supply: nat, c: Client, m: Move)
    requires DbInv(org, db, supply) && ClientInv(org, db, supply, c)
    requires c.Heading? || c.Opening? || c.Scanning?
    requires SnapshotStep(org, db, supply, c, m).Some?
    ensures Good(org, db, supply, SnapshotStep(org, db, supply, c, m).value)
  {
    var e := SnapshotStep(org, db, supply, c, m).value;
    if e.client.Committing? {
      PrepareKeeps(org, db, supply, c, m);
    }
    hide Good, DbInv, PlanInv;
    QuietKeeps(org, db, supply, e.supply, e.client);
  }

  // Decrypting a complete, still current snapshot and sealing it again.
  lemma PrepareKeeps(org: string, db: Db, supply: nat, c: Client, m: Move)
    requires DbInv(org, db, supply) && ClientInv(org, db, supply, c)
    requires c.Scanning? && m.Prepare?
    requires SnapshotStep(org, db, supply, c, m).Some?
    requires SnapshotStep(org, db, supply, c, m).value.client.Committing?
    ensures PlanInv(org, db, SnapshotStep(org, db, supply, c, m).value.supply,
                    SnapshotStep(org, db, supply, c, m).value.client.plan)
  {
    var p := SnapshotStep(org, db, supply, c, m).value.client.plan;
    forall k | k in p.sealed
      ensures Decrypt(p.snap.dek.value.dek, org, p.snap.tokens[k]) == Some(p.sealed[k].plain)
    {
    }
    if Current(db, p.snap) {
      assert ScanComplete(db, c.start, p.snap.tokens);
      assert Covers(db, p.snap.tokens);
    }
  }

  lemma CommitKeeps(org: string, db: Db, supply: nat, c: Client, m: Move)
    requires DbInv(org, db, supply) && ClientInv(org, db, supply, c)
    requires c.Committing?
    requires CommitStep(db, supply, c, m).Some?
    ensures Good(org, db, supply, CommitStep(db, supply, c, m).value)
  {
    if c.phase.Keys? && m == Command && !c.dirty {
      ExecKeeps(org, db, supply, c);
    } else {
      CheckKeeps(org, db, supply, c, m);
      QuietKeeps(org, db, supply, supply, CommitStep(db, supply, c, m).value.client);
    }
  }

  // The commit loop starts with every snapshot key still to look at.
  lemma LoopStarts(org: string, db: Db, supply: nat, p: Plan)
    requires PlanInv(org, db, supply, p) && Current(db, p.snap)
    ensures db.tokens.Keys <= p.snap.tokens.Keys
  {
  }

  // The phase reached, while the watched keys are clean.
  lemma CheckPhase(org: string, db: Db, supply: nat, c: Client, m: Move)
    requires ClientInv(org, db, supply, c) && c.Committing? && !c.dirty
    requires CommitStep(db, supply, c, m).Some? && CommitStep(db, supply, c, m).value.client.Committing?
    ensures PhaseInv(db, c.plan, CommitStep(db, supply, c, m).value.client.phase)
  {
    if Current(db, c.plan.snap) {
      LoopStarts(org, db, supply, c.plan);
    }
    hide PlanInv, Known, CommitTx;
  }

  lemma CheckInv(org: string, db: Db, supply: nat, c: Client, m: Move)
    requires ClientInv(org, db, supply, c)
    requires c.Committing? && !(c.phase.Keys? && m == Command && !c.dirty)
    requires CommitStep(db, supply, c, m).Some?
    ensures ClientInv(org, db, supply, CommitStep(db, supply, c, m).value.client)
  {
    var e := CommitStep(db, supply, c, m).value;
    if e.client.Committing? && !c.dirty {
      CheckPhase(org, db, supply, c, m);
    }
    hide PlanInv, PhaseInv, Current, CommitTx;
  }

  // Every command of commit_rotation before EXEC only reads.
  lemma CheckKeeps(org: string, db: Db, supply: nat, c: Client, m: Move)
    requires ClientInv(org, db, supply, c)
    requires c.Committing? && !(c.phase.Keys? && m == Command && !c.dirty)
    requires CommitStep(db, supply, c, m).Some?
    ensures var e := CommitStep(db, supply, c, m).value;
            e == Quietly(db, supply, e.client).value && ClientInv(org, db, supply, e.client)
  {
    CheckInv(org, db, supply, c, m);
    hide ClientInv;
  }

  // Every live token is in the list of a commit that found nothing amiss.
  lemma ExecEach(org: string, db: Db, supply: nat, c: Client, k: Key)
    requires ClientInv(org, db, supply, c) && k in db.tokens
    requires c.Committing? && !c.dirty && c.phase.Keys? && c.phase.todo == {}
    ensures var p := c.plan;
            && k in c.phase.live && k in p.sealed
            && p.sealed[k].dek == p.w.dek && p.sealed[k].aad == org
            && db.dek.Some? && p.w.dek != db.dek.value.dek
            && Decrypt(db.dek.value.dek, org, db.tokens[k].cipher) == Some(p.sealed[k].plain)
  {
    assert k in c.phase.live;
    assert c.plan.snap.tokens[k] == db.tokens[k].cipher;
  }

  lemma PlanFresh(org: string, db: Db, supply: nat, c: Client)
    requires ClientInv(org, db, supply, c) && c.Committing?
    ensures c.plan.w.dek < supply
  {
  }

  // The plain vault does not see it.
  lemma CommitSame(org: string, db: Db, live: set<Key>, sealed: map<Key, Cipher>, w: Wrapped, revision: nat, op: string)
    requires forall k :: k in db.tokens ==>
               && k in live && k in sealed && db.dek.Some?
               && sealed[k].dek == w.dek && sealed[k].aad == org
               && Decrypt(db.dek.value.dek, org, db.tokens[k].cipher) == Some(sealed[k].plain)
    ensures Abs(org, CommitTx(db, live, sealed, w, revision, op)) == Abs(org, db)
  {
    var db' := CommitTx(db, live, sealed, w, revision, op);
    forall k | k in db.tokens ensures Read(org, db', k) == Read(org, db, k) {
      assert db'.tokens[k] == Entry(sealed[k], db.tokens[k].deadline);
    }
  }

  // Sealing every live token again under a new DEK with the same plaintext.
  lemma CommitGood(org: string, db: Db, supply: nat, live: set<Key>, sealed: map<Key, Cipher>, w: Wrapped, op: string)
    requires w.dek < supply && op !in db.results
    requires forall k :: k in db.tokens ==>
               && k in live && k in sealed && db.dek.Some?
               && sealed[k].dek == w.dek && sealed[k].aad == org
               && Decrypt(db.dek.value.dek, org, db.tokens[k].cipher) == Some(sealed[k].plain)
    ensures Good(org, db, supply,
                 Effect(CommitTx(db, live, sealed, w, supply, op), supply + 1, Rotated(op, |live|),
                        Touched(true, true, Some(op), live), [Commit(op, |live|, db.dek)]))
  {
    CommitSame(org, db, live, sealed, w, supply, op);
    hide Abs, Decrypt;
  }

  // EXEC of a rotation: every live token is in the list, so none stays under
  // the old DEK, and each keeps its plaintext and its deadline.
  lemma ExecKeeps(org: string, db: Db, supply: nat, c: Client)
    requires DbInv(org, db, supply) && ClientInv(org, db, supply, c)
    requires c.Committing? && !c.dirty && c.phase.Keys? && c.phase.todo == {}
    requires c.plan.op !in db.results
    ensures Good(org, db, supply, CommitStep(db, supply, c, Command).value)
  {
    hide ClientInv, DbInv, Decrypt, Good, CommitTx;
    var p := c.plan;
    forall k | k in db.tokens
      ensures k in c.phase.live && k in p.sealed && db.dek.Some?
      ensures p.sealed[k].dek == p.w.dek && p.sealed[k].aad == org
      ensures Decrypt(db.dek.value.dek, org, db.tokens[k].cipher) == Some(p.sealed[k].plain)
    {
      ExecEach(org, db, supply, c, k);
    }
    PlanFresh(org, db, supply, c);
    CommitGood(org, db, supply, c.phase.live, p.sealed, p.w, p.op);
  }

  lemma FlushKeeps(org: string, db: Db, supply: nat, c: Client, m: Move)
    requires DbInv(org, db, supply) && ClientInv(org, db, supply, c)
    requires c.Unlinking? || c.Dropping?
    requires FlushStep(db, supply, c, m).Some?
    ensures Good(org, db, supply, FlushStep(db, supply, c, m).value)
  {
    match c
    case Unlinking(req, members) => UnlinkGood(org, db, supply, req, KeysOf(req, members));
    case Dropping(req) => assert Abs(org, DropSetTx(db, req)) == Abs(org, db);
  }

  lemma UnlinkGood(org: string, db: Db, supply: nat, req: string, ks: set<Key>)
    requires DbInv(org, db, supply)
    ensures Good(org, db, supply,
                 Effect(UnlinkTx(db, ks), supply, Dropping(req), Touched(false, false, None, ks), [Drop(ks)]))
  {
    assert Abs(org, UnlinkTx(db, ks)) == Abs(org, db) - ks;
  }

  lemma ClientKeeps(org: string, db: Db, supply: nat, c: Client, m: Move)
    requires DbInv(org, db, supply) && ClientInv(org, db, supply, c)
    requires ClientStep(org, db, supply, c, m).Some?
    ensures Good(org, db, supply, ClientStep(org, db, supply, c, m).value)
  {
    if c.Holding? || c.Storing? || c.Rereading? || c.Registering? {
      TokenizeKeeps(org, db, supply, c, m);
    } else if c.Creating? {
      CreateKeeps(org, db, supply, c, m);
    } else if c.Heading? || c.Opening? || c.Scanning? {
      SnapshotKeeps(org, db, supply, c, m);
    } else if c.Committing? {
      CommitKeeps(org, db, supply, c, m);
    } else {
      FlushKeeps(org, db, supply, c, m);
    }
  }

  ghost predicate Inv(s: State) {
    && DbInv(s.org, s.db, s.supply)
    && (forall i :: i in s.clients ==> ClientInv(s.org, s.db, s.supply, s.clients[i]))
    && Abs(s.org, s.db) == Replay(s.log)
  }

  lemma ApplyKeeps(s: State, i: nat, e: Effect)
    requires Inv(s) && Good(s.org, s.db, s.supply, e)
    ensures Inv(Apply(s, i, e))
  {
    var s' := Apply(s, i, e);
    forall j | j in s'.clients && j != i
      ensures ClientInv(s'.org, s'.db, s'.supply, s'.clients[j])
    {
      Stable(s.org, s.db, s.supply, e.db, e.supply, e.touched, s.clients[j]);
    }
    if e.log == [] {
      assert s.log + e.log == s.log;
    } else {
      assert e.log == [e.log[0]];
      ReplayOne(s.log, e.log[0]);
    }
  }

  // Time passing drops the expired tokens and nothing else.
  lemma TickEvolves(org: string, db: Db, supply: nat, t: nat, touched: Touched)
    requires DbInv(org, db, supply) && touched.op == None
    ensures DbInv(org, AdvanceTo(db, t), supply)
    ensures Evolves(db, supply, AdvanceTo(db, t), supply, touched)
    ensures Abs(org, AdvanceTo(db, t)) == Abs(org, db) - Expired(db, t)
  {
  }

  lemma TickKeeps(s: State, dt: nat, noticed: set<nat>)
    requires Inv(s)
    ensures Inv(Next(s, Tick(dt, noticed)).value)
  {
    hide AdvanceTo, Expired, ClientInv, DbInv, Evolves, Abs;
    var s' := Next(s, Tick(dt, noticed)).value;
    var gone := Expired(s.db, s.db.now + dt);
    var t := Touched(false, false, None, gone);
    TickEvolves(s.org, s.db, s.supply, s.db.now + dt, t);
    TickEvolves(s.org, s.db, s.supply, s.db.now + dt, NOTHING);
    forall j | j in s'.clients
      ensures ClientInv(s'.org, s'.db, s'.supply, s'.clients[j])
    {
      Stable(s.org, s.db, s.supply, s'.db, s'.supply, t, s.clients[j]);
      Stable(s.org, s.db, s.supply, s'.db, s'.supply, NOTHING, s.clients[j]);
    }
    ReplayOne(s.log, Drop(gone));
  }

  lemma StepKeeps(s: State, step: Step)
    requires Inv(s) && Next(s, step).Some?
    ensures Inv(Next(s, step).value)
  {
    match step
    case Tick(dt, noticed) => TickKeeps(s, dt, noticed);
    case Spawn(i, m) =>
      SpawnKeeps(s.org, s.db, s.supply, m);
      ApplyKeeps(s, i, SpawnStep(s.db, s.supply, m).value);
    case Act(i, m) =>
      ClientKeeps(s.org, s.db, s.supply, s.clients[i], m);
      ApplyKeeps(s, i, ClientStep(s.org, s.db, s.supply, s.clients[i], m).value);
  }

  lemma {:induction false} RunKeeps(s: State, steps: seq<Step>)
    requires Inv(s) && Run(s, steps).Some?
    ensures Inv(Run(s, steps).value)
    decreases |steps|
  {
    if steps != [] {
      StepKeeps(s, steps[0]);
      RunKeeps(Next(s, steps[0]).value, steps[1..]);
    }
  }

  // In every interleaving, the live tokens are exactly those of the plain vault,
  // with the same expiry, and each decrypts under the stored DEK to the text
  // that its last writer stored.
  lemma Refinement(org: string, steps: seq<Step>, s: State)
    requires Run(Init(org), steps) == Some(s)
    ensures s.db.tokens.Keys == Replay(s.log).Keys
    ensures forall k :: k in s.db.tokens ==>
              && s.db.dek.Some?
              && Decrypt(s.db.dek.value.dek, org, s.db.tokens[k].cipher) == Replay(s.log)[k].text
              && Replay(s.log)[k].text.Some?
              && s.db.tokens[k].deadline == Replay(s.log)[k].deadline
  {
    SameOrg(Init(org), steps);
    RunKeeps(Init(org), steps);
    assert s.db.tokens.Keys == Abs(org, s.db).Keys;
    forall k | k in s.db.tokens
      ensures Abs(org, s.db)[k] == Plain(Read(org, s.db, k), s.db.tokens[k].deadline)
    {
    }
  }

  lemma {:induction false} SameOrg(s: State, steps: seq<Step>)
    requires Run(s, steps).Some?
    ensures Run(s, steps).value.org == s.org
    decreases |steps|
  {
    if steps != [] {
      SameOrg(Next(s, steps[0]).value, steps[1..]);
    }
  }
}
