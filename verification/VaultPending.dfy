// The index that lasts: a token may be missing from it only while the call that
// stored it is about to register it again. Exactly when a flush keeps this.
module VaultPending {
  import opened Wrappers
  import opened VaultStore
  import opened VaultProtocol
  import opened VaultSafety
  import opened VaultIndex
  import opened VaultFlush

  // The token's writer has still to run its register_request_token.
  ghost predicate Pending(s: State, k: Key) {
    exists i :: i in s.clients && Registers(s.clients[i], k)
  }

  predicate Registers(c: Client, k: Key) {
    c.Registering? && k == Key(c.call.req, c.job.hash)
  }

  predicate Listed(db: Db, k: Key)
    requires k in db.tokens
  {
    && k.req in db.index && k.hash in db.index[k.req].members
    && db.tokens[k].deadline <= db.index[k.req].deadline
  }

  // Every live token is listed, in a set that outlives it, or one of pend.
  ghost predicate Covered(db: Db, pend: iset<Key>, ttl: nat) {
    forall k :: k in db.tokens ==> db.tokens[k].deadline <= db.now + ttl && (Listed(db, k) || k in pend)
  }

  ghost function AllPending(s: State): iset<Key> {
    iset k | Pending(s, k)
  }

  // Every live token is registered, or its writer is about to do so.
  ghost predicate Lasts(s: State, ttl: nat) {
    Covered(s.db, AllPending(s), ttl) && OneTtl(s, ttl)
  }

  // ---- What each transaction does to it ----

  lemma CoveredStore(db: Db, k: Key, c: Cipher, ttl: nat, revision: nat, pend: iset<Key>)
    requires Covered(db, pend, ttl)
    ensures Covered(StoreTx(db, k, c, ttl, revision), pend, ttl)
    ensures Covered(RegisterTx(db, k, ttl), pend - iset{k}, ttl)
  {
    assert forall j :: j in db.tokens && Listed(db, j) ==> j.hash in Members(db, j.req);
  }

  lemma CoveredUnlink(db: Db, ks: set<Key>, req: string, ttl: nat, pend: iset<Key>)
    requires Covered(db, pend, ttl)
    ensures Covered(UnlinkTx(db, ks), pend, ttl)
    ensures Covered(DropSetTx(db, req), pend, ttl) <==> forall k :: k in db.tokens && k.req == req ==> k in pend
  {
    if Covered(DropSetTx(db, req), pend, ttl) {
      forall k | k in db.tokens && k.req == req ensures k in pend {
        assert k in DropSetTx(db, req).tokens;
      }
    }
  }

  lemma CoveredCommit(db: Db, live: set<Key>, sealed: map<Key, Cipher>, w: Wrapped, revision: nat, op: string,
                      ttl: nat, pend: iset<Key>)
    requires Covered(db, pend, ttl)
    ensures Covered(CommitTx(db, live, sealed, w, revision, op), pend, ttl)
    ensures Covered(db.(dek := Some(w)), pend, ttl)
  {
  }

  lemma CoveredTick(db: Db, t: nat, ttl: nat, pend: iset<Key>)
    requires Covered(db, pend, ttl) && db.now <= t
    ensures Covered(AdvanceTo(db, t), pend, ttl)
  {
  }

  lemma CoveredMore(db: Db, pend: iset<Key>, more: iset<Key>, ttl: nat)
    requires Covered(db, pend, ttl) && pend <= more
    ensures Covered(db, more, ttl)
  {
  }

  ghost function Due(c: Client): iset<Key> { iset k | Registers(c, k) }

  // A command of one client, the writers of pend being others.
  lemma EffectCovered(org: string, db: Db, supply: nat, c: Client, m: Move, ttl: nat, pend: iset<Key>)
    requires Covered(db, pend + Due(c), ttl) && HasTtl(c, ttl) && ClientStep(org, db, supply, c, m).Some?
    requires c.Dropping? ==> forall k :: k in db.tokens && k.req == c.req ==> k in pend
    ensures var e := ClientStep(org, db, supply, c, m).value; Covered(e.db, pend + Due(e.client), ttl)
  {
    var e := ClientStep(org, db, supply, c, m).value;
    if c.Registering? {
      var k := Key(c.call.req, c.job.hash);
      assert Due(c) == iset{k};
      CoveredStore(db, k, Cipher(0, "", "", 0), ttl, 0, pend + Due(c));
      assert (pend + Due(c)) - iset{k} <= pend + Due(e.client);
      hide Covered, RegisterTx, Due;
      CoveredMore(e.db, (pend + iset{k}) - iset{k}, pend + Due(e.client), ttl);
    } else {
      assert Due(c) == iset{};
      assert pend + Due(c) == pend;
      OtherCovered(org, db, supply, c, m, ttl, pend);
      hide Covered, ClientStep, Due;
      CoveredMore(e.db, pend, pend + Due(e.client), ttl);
    }
  }

  lemma OtherCovered(org: string, db: Db, supply: nat, c: Client, m: Move, ttl: nat, pend: iset<Key>)
    requires Covered(db, pend, ttl) && HasTtl(c, ttl) && !c.Registering? && ClientStep(org, db, supply, c, m).Some?
    requires c.Dropping? ==> forall k :: k in db.tokens && k.req == c.req ==> k in pend
    ensures Covered(ClientStep(org, db, supply, c, m).value.db, pend, ttl)
  {
    hide Covered, StoreTx, RegisterTx, UnlinkTx, DropSetTx, CommitTx;
    match c
    case Storing(call, job, cipher, _, _) => CoveredStore(db, Key(call.req, job.hash), cipher, ttl, supply, pend);
    case Unlinking(req, members) => CoveredUnlink(db, KeysOf(req, members), req, ttl, pend);
    case Dropping(req) => CoveredUnlink(db, {}, req, ttl, pend);
    case Creating(cand, _, _) => CoveredCommit(db, {}, map[], cand, 0, "", ttl, pend);
    case Committing(p, phase, _) =>
      if phase.Keys? { CoveredCommit(db, phase.live, p.sealed, p.w, supply, p.op, ttl, pend); }
    case _ =>
  }

  // ---- What each step does to it ----

  // The keys that wait for a client other than i.
  ghost function DueBut(s: State, i: nat): iset<Key> { iset k | PendingBut(s, i, k) }

  ghost predicate PendingBut(s: State, i: nat, k: Key) {
    exists j :: j in s.clients && j != i && Registers(s.clients[j], k)
  }

  lemma NotifyDue(c: Client, t: Touched, k: Key)
    ensures Registers(Notify(c, t), k) <==> Registers(c, k)
  {
    hide Watches;
  }

  lemma ApplyDue(s: State, i: nat, e: Effect)
    ensures AllPending(Apply(s, i, e)) == DueBut(s, i) + Due(e.client)
    ensures i in s.clients ==> AllPending(s) == DueBut(s, i) + Due(s.clients[i])
    ensures i !in s.clients ==> AllPending(s) == DueBut(s, i)
  {
    forall k ensures Pending(Apply(s, i, e), k) <==> PendingBut(s, i, k) || Registers(e.client, k) {
      PendingAfter(s, i, e, k);
    }
    forall k ensures Pending(s, k) <==> PendingBut(s, i, k) || (i in s.clients && Registers(s.clients[i], k)) {
    }
    hide Pending, PendingBut, Registers;
  }

  lemma PendingAfter(s: State, i: nat, e: Effect, k: Key)
    ensures Pending(Apply(s, i, e), k) <==> PendingBut(s, i, k) || Registers(e.client, k)
  {
    hide Notify, Registers;
    var s' := Apply(s, i, e);
    forall j | j in s.clients && j != i ensures Registers(s'.clients[j], k) <==> Registers(s.clients[j], k) {
      NotifyDue(s.clients[j], e.touched, k);
    }
    assert s'.clients[i] == e.client;
    if PendingBut(s, i, k) {
      var j :| j in s.clients && j != i && Registers(s.clients[j], k);
      assert Registers(s'.clients[j], k);
    }
  }

  // The final DEL of a flush finds no live token of its request that nobody is
  // about to register.
  ghost predicate DelsLeavePending(s: State, step: Step) {
    step.Act? && step.i in s.clients && s.clients[step.i].Dropping? ==>
      forall k :: k in s.db.tokens && k.req == s.clients[step.i].req ==> Pending(s, k)
  }

  lemma ActLasts(s: State, i: nat, m: Move, ttl: nat)
    requires Lasts(s, ttl) && DelsLeavePending(s, Act(i, m)) && Next(s, Act(i, m)).Some?
    ensures Covered(Next(s, Act(i, m)).value.db, AllPending(Next(s, Act(i, m)).value), ttl)
  {
    var c, e := s.clients[i], ClientStep(s.org, s.db, s.supply, s.clients[i], m).value;
    ApplyDue(s, i, e);
    hide ClientStep, Covered, HasTtl, AllPending, DueBut, Due;
    if c.Dropping? {
      forall k | k in s.db.tokens && k.req == c.req ensures k in DueBut(s, i) {
        OthersDue(s, i, k);
      }
    }
    EffectCovered(s.org, s.db, s.supply, c, m, ttl, DueBut(s, i));
  }

  lemma OthersDue(s: State, i: nat, k: Key)
    requires i in s.clients && !s.clients[i].Registering?
    ensures Pending(s, k) <==> k in DueBut(s, i)
  {
  }

  lemma TickLasts(s: State, dt: nat, noticed: set<nat>, ttl: nat)
    requires Lasts(s, ttl)
    ensures var s' := Next(s, Tick(dt, noticed)).value; Covered(s'.db, AllPending(s'), ttl)
  {
    var s' := Next(s, Tick(dt, noticed)).value;
    CoveredTick(s.db, s.db.now + dt, ttl, AllPending(s));
    var gone := Expired(s.db, s.db.now + dt);
    forall k ensures k in AllPending(s') <==> k in AllPending(s) {
      forall j | j in s.clients ensures Registers(s'.clients[j], k) <==> Registers(s.clients[j], k) {
        NotifyDue(s.clients[j], Touched(false, false, None, gone), k);
      }
    }
    hide Covered, AdvanceTo, Expired, Notify;
    assert AllPending(s') == AllPending(s);
  }

  lemma SpawnLasts(s: State, i: nat, m: Move, ttl: nat)
    requires Lasts(s, ttl) && i !in s.clients && SpawnStep(s.db, s.supply, m).Some?
    ensures var s' := Next(s, Spawn(i, m)).value; Covered(s'.db, AllPending(s'), ttl)
  {
    var e := SpawnStep(s.db, s.supply, m).value;
    SpawnQuiet(s.db, s.supply, m);
    ApplyDue(s, i, e);
    hide SpawnStep, Covered, AllPending, DueBut, Due;
    CoveredMore(s.db, DueBut(s, i), DueBut(s, i) + Due(e.client), ttl);
  }

  lemma SpawnQuiet(db: Db, supply: nat, m: Move)
    requires SpawnStep(db, supply, m).Some?
    ensures SpawnStep(db, supply, m).value.db == db
  {
  }

  // Every step but the DEL of a flush keeps the lasting index, and that one does
  // if the live tokens of its request all wait for their writers.
  lemma StepLasts(s: State, step: Step, ttl: nat)
    requires Lasts(s, ttl) && DelsLeavePending(s, step) && Next(s, step).Some?
    requires step.Spawn? && step.m.Tokenize? ==> step.m.ttl == ttl
    ensures Lasts(Next(s, step).value, ttl)
  {
    hide Covered, AllPending, Next, DelsLeavePending;
    OneTtlStep(s, step, ttl);
    match step
    case Tick(dt, noticed) => TickLasts(s, dt, noticed, ttl);
    case Spawn(i, m) => SpawnOk(s, i, m); SpawnLasts(s, i, m, ttl);
    case Act(i, m) => ActLasts(s, i, m, ttl);
  }

  lemma SpawnOk(s: State, i: nat, m: Move)
    requires Next(s, Spawn(i, m)).Some?
    ensures i !in s.clients && SpawnStep(s.db, s.supply, m).Some?
  {
  }

  // And only then.
  lemma DelLastsIff(s: State, i: nat, m: Move, ttl: nat)
    requires Lasts(s, ttl) && i in s.clients && s.clients[i].Dropping? && Next(s, Act(i, m)).Some?
    ensures Lasts(Next(s, Act(i, m)).value, ttl) <==> DelsLeavePending(s, Act(i, m))
  {
    var req, e := s.clients[i].req, ClientStep(s.org, s.db, s.supply, s.clients[i], m).value;
    ApplyDue(s, i, e);
    assert Due(e.client) == iset{};
    assert AllPending(Next(s, Act(i, m)).value) == DueBut(s, i) + iset{} == DueBut(s, i);
    CoveredUnlink(s.db, {}, req, ttl, AllPending(s));
    assert Due(s.clients[i]) == iset{};
    assert AllPending(s) == DueBut(s, i);
    assert e.db == DropSetTx(s.db, req);
    OneTtlStep(s, Act(i, m), ttl);
    hide Covered, DropSetTx, OneTtl;
    assert DelsLeavePending(s, Act(i, m)) <==> forall k :: k in s.db.tokens && k.req == req ==> k in AllPending(s);
  }

  // ---- The condition on the log of a flush ----

  // Every token of the request that was stored since the flush began, or waited
  // for its writer then, has been dropped again or waits for a writer now.
  ghost predicate Settled(s0: State, s: State, req: string) {
    forall n :: 0 <= n < |s.log| && s.log[n].Put? && s.log[n].key.req == req && Undropped(s.log, n, s.log[n].key)
                && (n >= |s0.log| || Pending(s0, s.log[n].key)) ==>
      Pending(s, s.log[n].key)
  }

  lemma SettledIff(s0: State, s: State, req: string, ttl: nat)
    requires Inv(s0) && Inv(s) && Lasts(s0, ttl) && |s0.log| <= |s.log| && s.log[..|s0.log|] == s0.log
    requires Unlinked(s.log, |s0.log|, KeysOf(req, Members(s0.db, req)))
    ensures (forall k :: k in s.db.tokens && k.req == req ==> Pending(s, k)) <==> Settled(s0, s, req)
  {
    LiveIsReplayed(s0);
    LiveIsReplayed(s);
    hide Inv, Replay, Undropped, Pending, Unlinked;
    if Settled(s0, s, req) {
      forall k | k in s.db.tokens && k.req == req ensures Pending(s, k) {
        LiveIffUndropped(s.log, k);
        var n :| 0 <= n < |s.log| && s.log[n].Put? && s.log[n].key == k && Undropped(s.log, n, k);
        if n < |s0.log| && !Pending(s0, k) {
          OldIsGone(s0, s, req, ttl, k, n);
        }
      }
    } else {
      var n :| 0 <= n < |s.log| && s.log[n].Put? && s.log[n].key.req == req && Undropped(s.log, n, s.log[n].key)
               && !Pending(s, s.log[n].key);
      LiveIffUndropped(s.log, s.log[n].key);
    }
  }

  // A listed token from before the SMEMBERS is among the keys that UNLINK dropped.
  lemma OldIsGone(s0: State, s: State, req: string, ttl: nat, k: Key, n: nat)
    requires Lasts(s0, ttl) && !Pending(s0, k) && |s0.log| <= |s.log| && s.log[..|s0.log|] == s0.log
    requires Unlinked(s.log, |s0.log|, KeysOf(req, Members(s0.db, req)))
    requires forall k :: k in s0.db.tokens <==> k in Replay(s0.log)
    requires n < |s.log| && s.log[n].Put? && s.log[n].key == k && k.req == req && Undropped(s.log, n, k)
    ensures n >= |s0.log|
  {
    hide Replay;
    if n < |s0.log| {
      assert s0.log[n] == s.log[n];
      assert Undropped(s0.log, n, k) by {
        assert forall m :: 0 <= m < |s0.log| ==> s0.log[m] == s.log[m];
      }
      LiveIffUndropped(s0.log, k);
    }
  }

  ghost predicate LastsAt(org: string, steps: seq<Step>, n: nat, ttl: nat) {
    n <= |steps| && At(org, steps, n).Some? && Lasts(At(org, steps, n).value, ttl)
  }

  // The DEL of a flush keeps the lasting index exactly when every token of the
  // request that was stored since the flush began, or waited for its writer then,
  // has been dropped again or waits for a writer now.
  lemma FlushLastsIff(org: string, steps: seq<Step>, p: nat, q: nat, ttl: nat)
    requires Ends(org, steps, p, q) && At(org, steps, q + 1).Some?
    requires LastsAt(org, steps, p, ttl) && LastsAt(org, steps, q, ttl)
    ensures Lasts(At(org, steps, q + 1).value, ttl)
       <==> Settled(At(org, steps, p).value, At(org, steps, q).value, steps[p].m.req)
  {
    hide At, Lasts, Settled, Unlinked;
    var j := steps[q].i;
    var p' := FlushOrigin(org, steps, q, j);
    AtBefore(org, steps, p + 1, q);
    AtBefore(org, steps, p' + 1, q);
    if p < p' { SpawnsOnce(org, steps, p, p'); }
    if p' < p { SpawnsOnce(org, steps, p', p); }
    AtNext(org, steps, q);
    SettledAt(org, steps, p, q, ttl);
    DelLastsIff(At(org, steps, q).value, j, steps[q].m, ttl);
  }

  lemma SettledAt(org: string, steps: seq<Step>, p: nat, q: nat, ttl: nat)
    requires Ends(org, steps, p, q) && Began(org, steps, q, steps[q].i, p) && LastsAt(org, steps, p, ttl)
    ensures DelsLeavePending(At(org, steps, q).value, steps[q])
       <==> Settled(At(org, steps, p).value, At(org, steps, q).value, steps[p].m.req)
  {
    AtInv(org, steps, p);
    AtInv(org, steps, q);
    LogPrefix(org, steps, p, q);
    hide At, Lasts, Settled, Inv, Pending;
    SettledIff(At(org, steps, p).value, At(org, steps, q).value, steps[p].m.req, ttl);
  }

  // ---- Every flush of a run ----

  ghost predicate SettledFlushes(org: string, steps: seq<Step>) {
    forall p, q :: 0 <= p < q < |steps| && Ends(org, steps, p, q) ==>
      Settled(At(org, steps, p).value, At(org, steps, q).value, steps[p].m.req)
  }

  lemma NothingPending(org: string, ttl: nat)
    ensures Lasts(Init(org), ttl)
  {
  }

  // If every flush of a run ends so, the lasting index holds at every moment.
  lemma {:induction false} AlwaysLasts(org: string, steps: seq<Step>, n: nat, ttl: nat)
    requires n <= |steps| && At(org, steps, n).Some? && FixedTtl(steps, ttl) && SettledFlushes(org, steps)
    ensures forall m :: 0 <= m <= n ==> LastsAt(org, steps, m, ttl)
    decreases n
  {
    hide At, Next, Lasts, SettledFlushes;
    if n == 0 {
      AtStart(org, steps);
      NothingPending(org, ttl);
    } else {
      AtNext(org, steps, n - 1);
      AlwaysLasts(org, steps, n - 1, ttl);
      assert LastsAt(org, steps, n - 1, ttl);
      var s, step := At(org, steps, n - 1).value, steps[n - 1];
      if step.Act? && step.i in s.clients && s.clients[step.i].Dropping? {
        SettledDel(org, steps, n - 1, ttl);
      }
      StepLasts(s, step, ttl);
    }
  }

  lemma SettledDel(org: string, steps: seq<Step>, q: nat, ttl: nat)
    requires q < |steps| && At(org, steps, q).Some? && SettledFlushes(org, steps)
    requires forall m :: 0 <= m <= q ==> LastsAt(org, steps, m, ttl)
    requires var s := At(org, steps, q).value;
             steps[q].Act? && steps[q].i in s.clients && s.clients[steps[q].i].Dropping?
    ensures DelsLeavePending(At(org, steps, q).value, steps[q])
  {
    hide At, Lasts, Settled, DelsLeavePending;
    var p := FlushOrigin(org, steps, q, steps[q].i);
    assert LastsAt(org, steps, p, ttl);
    assert Ends(org, steps, p, q);
    SettledAt(org, steps, p, q, ttl);
  }

  // The keys are live from step a to step b, and no writer has still to register one.
  ghost predicate LiveAndDone(org: string, steps: seq<Step>, a: nat, b: nat, ks: set<Key>) {
    forall n, k :: a <= n <= b && n <= |steps| && k in ks ==>
      At(org, steps, n).Some? && k in At(org, steps, n).value.db.tokens && !Pending(At(org, steps, n).value, k)
  }

  // In such a run count_org_tokens, whatever runs between its commands, never
  // reports fewer tokens than were live, with their writers done, throughout.
  lemma CountCoversDone(org: string, steps: seq<Step>, a: nat, b: nat, scards: seq<Scard>, ks: set<Key>, ttl: nat)
    requires Run(Init(org), steps).Some? && FixedTtl(steps, ttl) && SettledFlushes(org, steps)
    requires a <= b <= |steps| && InWindow(scards, a, b) && Complete(org, steps, a, b, scards)
    requires LiveAndDone(org, steps, a, b, ks)
    ensures |ks| <= Total(org, steps, scards)
  {
    hide Complete, InWindow, SettledFlushes, FixedTtl;
    assert steps[..|steps|] == steps;
    AlwaysLasts(org, steps, |steps|, ttl);
    hide At, Pending;
    forall n, k | a <= n <= b && n <= |steps| && k in ks
      ensures At(org, steps, n).Some? && k.req in At(org, steps, n).value.db.index
      ensures k.hash in Members(At(org, steps, n).value.db, k.req)
    {
      assert LastsAt(org, steps, n, ttl);
      assert k !in AllPending(At(org, steps, n).value);
    }
    CountCovers(org, steps, a, b, scards, ks);
  }
}
