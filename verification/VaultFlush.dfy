// Flushes that run among other clients' commands: exactly when one leaves no live
// token of its request behind, and what that means for counting.
module VaultFlush {
  import opened Wrappers
  import opened VaultStore
  import opened VaultProtocol
  import opened VaultSafety
  import opened VaultProgress
  import opened VaultIndex

  // ---- Prefixes of a run ----

  ghost function At(org: string, steps: seq<Step>, n: nat): Option<State>
    requires n <= |steps|
  {
    Run(Init(org), steps[..n])
  }

  lemma AtNext(org: string, steps: seq<Step>, n: nat)
    requires n < |steps| && At(org, steps, n + 1).Some?
    ensures At(org, steps, n).Some? && At(org, steps, n + 1) == Next(At(org, steps, n).value, steps[n])
  {
    hide Next;
    var step := [steps[n]];
    assert steps[..n + 1] == steps[..n] + step;
    Splits(Init(org), steps[..n], step);
    RunConcat(Init(org), steps[..n], step);
    var s := At(org, steps, n).value;
    OneStep(s, steps[n]) by { assert step[1..] == []; assert Run(s, step).Some?; }
  }

  lemma {:induction false} Splits(s: State, a: seq<Step>, b: seq<Step>)
    requires Run(s, a + b).Some?
    ensures Run(s, a).Some?
    decreases |a|
  {
    hide Next;
    if a != [] {
      assert (a + b)[0] == a[0] && (a + b)[1..] == a[1..] + b;
      Splits(Next(s, a[0]).value, a[1..], b);
    }
  }

  lemma {:induction false} AtBefore(org: string, steps: seq<Step>, m: nat, n: nat)
    requires m <= n <= |steps| && At(org, steps, n).Some?
    ensures At(org, steps, m).Some?
    decreases n
  {
    hide At;
    if m < n {
      AtNext(org, steps, n - 1);
      AtBefore(org, steps, m, n - 1);
    }
  }

  lemma AtInv(org: string, steps: seq<Step>, n: nat)
    requires n <= |steps| && At(org, steps, n).Some?
    ensures Inv(At(org, steps, n).value) && At(org, steps, n).value.org == org
  {
    hide Next;
    RunKeeps(Init(org), steps[..n]);
    SameOrg(Init(org), steps[..n]);
  }

  // ---- The log of a run ----

  lemma LogGrows(s: State, step: Step)
    requires Next(s, step).Some?
    ensures |s.log| <= |Next(s, step).value.log| && Next(s, step).value.log[..|s.log|] == s.log
  {
    hide ClientStep, SpawnStep, Notify;
  }

  lemma {:induction false} LogPrefix(org: string, steps: seq<Step>, m: nat, n: nat)
    requires m <= n <= |steps| && At(org, steps, n).Some? && At(org, steps, m).Some?
    ensures var a, b := At(org, steps, m).value.log, At(org, steps, n).value.log;
            |a| <= |b| && b[..|a|] == a
    decreases n
  {
    hide At, Next;
    if m < n {
      AtNext(org, steps, n - 1);
      LogPrefix(org, steps, m, n - 1);
      LogGrows(At(org, steps, n - 1).value, steps[n - 1]);
    }
  }

  // No later event of the log drops the key put at n.
  ghost predicate Undropped(log: seq<Event>, n: nat, k: Key) {
    forall m :: n < m < |log| && log[m].Drop? ==> k !in log[m].keys
  }

  // A key is live exactly if some put of it was not dropped later.
  lemma {:induction false} LiveIffUndropped(log: seq<Event>, k: Key)
    ensures k in Replay(log) <==> exists n :: 0 <= n < |log| && log[n].Put? && log[n].key == k && Undropped(log, n, k)
    decreases |log|
  {
    if log != [] {
      var last := |log| - 1;
      var before := log[..last];
      LiveIffUndropped(before, k);
      if k in Replay(log) && !(log[last].Put? && log[last].key == k) {
        var n :| 0 <= n < last && before[n].Put? && before[n].key == k && Undropped(before, n, k);
        assert Undropped(log, n, k) by { UndroppedMore(log, n, k); }
        assert log[n] == before[n];
      }
      if exists n :: 0 <= n < |log| && log[n].Put? && log[n].key == k && Undropped(log, n, k) {
        var n :| 0 <= n < |log| && log[n].Put? && log[n].key == k && Undropped(log, n, k);
        if n < last {
          UndroppedMore(log, n, k);
          assert before[n] == log[n];
        }
      }
    }
  }

  lemma UndroppedMore(log: seq<Event>, n: nat, k: Key)
    requires n < |log| - 1
    ensures Undropped(log, n, k)
       <==> Undropped(log[..|log| - 1], n, k) && !(log[|log| - 1].Drop? && k in log[|log| - 1].keys)
  {
    var before := log[..|log| - 1];
    assert forall m :: 0 <= m < |before| ==> before[m] == log[m];
  }

  // Every token put for the request since then has been dropped again.
  ghost predicate Quenched(log: seq<Event>, since: nat, req: string) {
    forall n :: since <= n < |log| && log[n].Put? && log[n].key.req == req ==> !Undropped(log, n, log[n].key)
  }

  // ---- One flush among other commands ----

  predicate Flushing(c: Client) { c.Unlinking? || c.Dropping? }

  // The flush of client j began at step p, and its UNLINK is in the log once it
  // has happened.
  ghost predicate Began(org: string, steps: seq<Step>, n: nat, j: nat, p: nat) {
    && p < n <= |steps| && At(org, steps, n).Some? && At(org, steps, p).Some?
    && steps[p].Spawn? && steps[p].i == j && steps[p].m.Flush?
    && var req, s0, s := steps[p].m.req, At(org, steps, p).value, At(org, steps, n).value;
       && j in s.clients
       && match s.clients[j]
          case Unlinking(r, members) => r == req && members == Members(s0.db, req)
          case Dropping(r) => r == req && Unlinked(s.log, |s0.log|, KeysOf(req, Members(s0.db, req)))
          case _ => false
  }

  ghost predicate Unlinked(log: seq<Event>, since: nat, ks: set<Key>) {
    exists m :: since <= m < |log| && log[m] == Drop(ks)
  }

  // How a step changes a client that is flushing afterwards.
  lemma FlushStays(s: State, step: Step, j: nat)
    requires Next(s, step).Some? && j in Next(s, step).value.clients && Flushing(Next(s, step).value.clients[j])
    ensures var s' := Next(s, step).value;
            || (step.Spawn? && step.i == j && j !in s.clients && step.m.Flush?
                && s'.clients[j] == Unlinking(step.m.req, Members(s.db, step.m.req)))
            || (j in s.clients && s'.clients[j] == s.clients[j])
            || (j in s.clients && s.clients[j].Unlinking? && s'.clients[j] == Dropping(s.clients[j].req)
                && s'.log == s.log + [Drop(KeysOf(s.clients[j].req, s.clients[j].members))])
  {
    if step.Spawn? && step.i == j {
      SpawnFlushes(s.db, s.supply, step.m);
    } else if step.Act? && step.i == j {
      ActFlushes(s.org, s.db, s.supply, s.clients[j], step.m);
    }
    hide ClientStep, SpawnStep, Watches, AdvanceTo, Expired;
  }

  lemma SpawnFlushes(db: Db, supply: nat, m: Move)
    requires SpawnStep(db, supply, m).Some? && Flushing(SpawnStep(db, supply, m).value.client)
    ensures m.Flush? && SpawnStep(db, supply, m).value.client == Unlinking(m.req, Members(db, m.req))
  {
  }

  lemma ActFlushes(org: string, db: Db, supply: nat, c: Client, m: Move)
    requires ClientStep(org, db, supply, c, m).Some? && Flushing(ClientStep(org, db, supply, c, m).value.client)
    ensures var e := ClientStep(org, db, supply, c, m).value;
            c.Unlinking? && e.client == Dropping(c.req) && e.log == [Drop(KeysOf(c.req, c.members))]
  {
    hide Take, StoreTx, RegisterTx, CommitTx, UnlinkTx, DropSetTx, Prepared;
  }

  lemma {:induction false} FlushOrigin(org: string, steps: seq<Step>, n: nat, j: nat) returns (p: nat)
    requires n <= |steps| && At(org, steps, n).Some?
    requires j in At(org, steps, n).value.clients && Flushing(At(org, steps, n).value.clients[j])
    ensures Began(org, steps, n, j, p)
    decreases n
  {
    hide At, Next, Members;
    if n == 0 {
      AtStart(org, steps);
      assert false;
    }
    AtNext(org, steps, n - 1);
    var s, s' := At(org, steps, n - 1).value, At(org, steps, n).value;
    FlushStays(s, steps[n - 1], j);
    LogGrows(s, steps[n - 1]);
    if j in s.clients && Flushing(s.clients[j]) {
      p := FlushOrigin(org, steps, n - 1, j);
      LogPrefix(org, steps, p, n - 1);
      StillUnlinked(org, steps, n, j, p);
    } else {
      p := n - 1;
    }
  }

  lemma AtStart(org: string, steps: seq<Step>)
    ensures At(org, steps, 0) == Some(Init(org))
  {
    assert steps[..0] == [];
  }

  lemma StillUnlinked(org: string, steps: seq<Step>, n: nat, j: nat, p: nat)
    requires 0 < n <= |steps| && Began(org, steps, n - 1, j, p) && At(org, steps, n).Some?
    requires var s, s' := At(org, steps, n - 1).value, At(org, steps, n).value;
             && j in s'.clients && |s.log| <= |s'.log| && s'.log[..|s.log|] == s.log
             && |At(org, steps, p).value.log| <= |s.log|
             && (s'.clients[j] == s.clients[j]
                 || (s.clients[j].Unlinking? && s'.clients[j] == Dropping(s.clients[j].req)
                     && s'.log == s.log + [Drop(KeysOf(s.clients[j].req, s.clients[j].members))]))
    ensures Began(org, steps, n, j, p)
  {
    hide At, Members, KeysOf;
    var s, s', s0 := At(org, steps, n - 1).value, At(org, steps, n).value, At(org, steps, p).value;
    var req := steps[p].m.req;
    var ks := KeysOf(req, Members(s0.db, req));
    if s.clients[j].Dropping? {
      var m :| |s0.log| <= m < |s.log| && s.log[m] == Drop(ks);
      assert s'.log[m] == s.log[m];
    } else if s'.clients[j].Dropping? {
      assert s'.log[|s.log|] == Drop(ks);
    }
  }

  // From an indexed state on, no token of the request is live at the DEL exactly
  // when every token stored since the SMEMBERS has been dropped again.
  lemma NoneLiveIffQuenched(org: string, steps: seq<Step>, n: nat, j: nat, p: nat, ttl: nat)
    requires Began(org, steps, n, j, p) && At(org, steps, n).value.clients[j].Dropping?
    requires Indexed(At(org, steps, p).value.db, ttl)
    ensures NoneLive(At(org, steps, n).value.db, steps[p].m.req)
       <==> Quenched(At(org, steps, n).value.log, |At(org, steps, p).value.log|, steps[p].m.req)
  {
    AtInv(org, steps, p);
    AtInv(org, steps, n);
    LogPrefix(org, steps, p, n);
    QuenchedIff(org, At(org, steps, p).value, At(org, steps, n).value, steps[p].m.req, ttl);
  }

  lemma LiveIsReplayed(s: State)
    requires Inv(s)
    ensures forall k :: k in s.db.tokens <==> k in Replay(s.log)
  {
    assert forall k :: k in s.db.tokens <==> k in Abs(s.org, s.db);
  }

  lemma QuenchedIff(org: string, s0: State, s: State, req: string, ttl: nat)
    requires Inv(s0) && Inv(s) && Indexed(s0.db, ttl) && |s0.log| <= |s.log| && s.log[..|s0.log|] == s0.log
    requires Unlinked(s.log, |s0.log|, KeysOf(req, Members(s0.db, req)))
    ensures NoneLive(s.db, req) <==> Quenched(s.log, |s0.log|, req)
  {
    LiveIsReplayed(s0);
    LiveIsReplayed(s);
    hide Inv, Replay, Undropped;
    var since := |s0.log|;
    if Quenched(s.log, since, req) {
      forall k | k in s.db.tokens ensures k.req != req {
        LiveIffUndropped(s.log, k);
        if k.req == req {
          var n :| 0 <= n < |s.log| && s.log[n].Put? && s.log[n].key == k && Undropped(s.log, n, k);
          OldIsUnlinked(s0, s, req, ttl, k, n);
        }
      }
    } else {
      var n :| since <= n < |s.log| && s.log[n].Put? && s.log[n].key.req == req && Undropped(s.log, n, s.log[n].key);
      LiveIffUndropped(s.log, s.log[n].key);
    }
  }

  // A token from before the SMEMBERS is among the keys that UNLINK dropped.
  lemma OldIsUnlinked(s0: State, s: State, req: string, ttl: nat, k: Key, n: nat)
    requires Indexed(s0.db, ttl) && |s0.log| <= |s.log| && s.log[..|s0.log|] == s0.log
    requires Unlinked(s.log, |s0.log|, KeysOf(req, Members(s0.db, req)))
    requires forall k :: k in s0.db.tokens <==> k in Replay(s0.log)
    requires n < |s.log| && s.log[n].Put? && s.log[n].key == k && k.req == req && Undropped(s.log, n, k)
    ensures n >= |s0.log|
  {
    hide Replay;
    if n < |s0.log| {
      assert s0.log[n] == s.log[n];
      assert Undropped(s0.log, n, k) by {
        assert forall m :: 0 <= m < |s0.log| ==> s0.log[m] == s.log[m];
      }
      LiveIffUndropped(s0.log, k);
    }
  }

  // ---- Every flush of a run ----

  // Tokenise calls use the fixed TTL.
  ghost predicate FixedTtl(steps: seq<Step>, ttl: nat) {
    forall n :: 0 <= n < |steps| && steps[n].Spawn? && steps[n].m.Tokenize? ==> steps[n].m.ttl == ttl
  }

  // Step q is the DEL of the flush that began at step p.
  ghost predicate Ends(org: string, steps: seq<Step>, p: nat, q: nat) {
    && p < q < |steps| && steps[p].Spawn? && steps[p].m.Flush? && steps[q].Act? && steps[q].i == steps[p].i
    && At(org, steps, p).Some? && At(org, steps, q).Some?
    && var s := At(org, steps, q).value;
       steps[q].i in s.clients && s.clients[steps[q].i].Dropping?
  }

  // No flush ends while a token that was stored for its request since it began
  // is still there.
  ghost predicate CleanFlushes(org: string, steps: seq<Step>) {
    forall p, q :: 0 <= p < q < |steps| && Ends(org, steps, p, q) ==>
      Quenched(At(org, steps, q).value.log, |At(org, steps, p).value.log|, steps[p].m.req)
  }

  ghost predicate IndexedAt(org: string, steps: seq<Step>, n: nat, ttl: nat) {
    n <= |steps| && At(org, steps, n).Some? && Indexed(At(org, steps, n).value.db, ttl)
    && OneTtl(At(org, steps, n).value, ttl)
  }

  // Then every live token is registered, at every moment of the run.
  lemma {:induction false} AlwaysIndexed(org: string, steps: seq<Step>, n: nat, ttl: nat)
    requires n <= |steps| && At(org, steps, n).Some? && FixedTtl(steps, ttl) && CleanFlushes(org, steps)
    ensures forall m :: 0 <= m <= n ==> IndexedAt(org, steps, m, ttl)
    decreases n
  {
    hide At, Next, Indexed, OneTtl, CleanFlushes;
    if n == 0 {
      AtStart(org, steps);
      NothingIndexed(org, ttl);
    } else {
      AtNext(org, steps, n - 1);
      AlwaysIndexed(org, steps, n - 1, ttl);
      assert IndexedAt(org, steps, n - 1, ttl);
      var s, step := At(org, steps, n - 1).value, steps[n - 1];
      if step.Act? && step.i in s.clients && s.clients[step.i].Dropping? {
        CleanDel(org, steps, n - 1, ttl);
      }
      IndexedStep(s, step, ttl);
      OneTtlStep(s, step, ttl);
    }
  }

  lemma NothingIndexed(org: string, ttl: nat)
    ensures Indexed(Init(org).db, ttl) && OneTtl(Init(org), ttl)
  {
  }

  lemma CleanDel(org: string, steps: seq<Step>, q: nat, ttl: nat)
    requires q < |steps| && At(org, steps, q).Some? && CleanFlushes(org, steps)
    requires forall m :: 0 <= m <= q ==> IndexedAt(org, steps, m, ttl)
    requires var s := At(org, steps, q).value;
             steps[q].Act? && steps[q].i in s.clients && s.clients[steps[q].i].Dropping?
    ensures var s := At(org, steps, q).value; NoneLive(s.db, s.clients[steps[q].i].req)
  {
    hide At, Indexed, OneTtl, NoneLive, Quenched;
    var j := steps[q].i;
    var p := FlushOrigin(org, steps, q, j);
    assert IndexedAt(org, steps, p, ttl);
    assert Ends(org, steps, p, q);
    NoneLiveIffQuenched(org, steps, q, j, p, ttl);
  }

  lemma {:induction false} ClientStays(org: string, steps: seq<Step>, m: nat, n: nat, j: nat)
    requires m <= n <= |steps| && At(org, steps, m).Some? && At(org, steps, n).Some?
    requires j in At(org, steps, m).value.clients
    ensures j in At(org, steps, n).value.clients
    decreases n
  {
    hide At, SpawnStep, ClientStep, Notify;
    if m < n {
      AtNext(org, steps, n - 1);
      ClientStays(org, steps, m, n - 1, j);
    }
  }

  lemma SpawnsOnce(org: string, steps: seq<Step>, p: nat, p': nat)
    requires p < p' < |steps| && steps[p].Spawn? && steps[p'].Spawn? && At(org, steps, p' + 1).Some?
    ensures steps[p].i != steps[p'].i
  {
    hide At, SpawnStep, ClientStep;
    AtNext(org, steps, p');
    AtBefore(org, steps, p + 1, p');
    AtNext(org, steps, p);
    ClientStays(org, steps, p + 1, p', steps[p].i);
  }

  // Of a run that is indexed when a flush begins and when it ends: its DEL keeps
  // every live token registered exactly when every token stored for the request
  // since its SMEMBERS has been dropped again.
  lemma FlushKeepsIndexIff(org: string, steps: seq<Step>, p: nat, q: nat, ttl: nat)
    requires Ends(org, steps, p, q) && At(org, steps, q + 1).Some?
    requires IndexedAt(org, steps, p, ttl) && IndexedAt(org, steps, q, ttl)
    ensures Indexed(At(org, steps, q + 1).value.db, ttl)
       <==> Quenched(At(org, steps, q).value.log, |At(org, steps, p).value.log|, steps[p].m.req)
  {
    hide At, Indexed, OneTtl, NoneLive, Quenched;
    var p' := FlushOrigin(org, steps, q, steps[q].i);
    AtBefore(org, steps, p + 1, q);
    AtBefore(org, steps, p' + 1, q);
    if p < p' { SpawnsOnce(org, steps, p, p'); }
    if p' < p { SpawnsOnce(org, steps, p', p); }
    AtNext(org, steps, q);
    NoneLiveIffQuenched(org, steps, q, steps[q].i, p, ttl);
    OnlyCommand(At(org, steps, q).value, steps[q].i, steps[q].m);
    DropKeepsIndexIff(At(org, steps, q).value, steps[q].i, ttl);
  }

  lemma OnlyCommand(s: State, i: nat, m: Move)
    requires i in s.clients && s.clients[i].Dropping? && Next(s, Act(i, m)).Some?
    ensures m == Command
  {
  }

  // ---- Counting while others write ----

  // SCARD of one request set, after the first `at` steps of the run.
  datatype Scard = Scard(at: nat, req: string)

  ghost function CardAt(org: string, steps: seq<Step>, r: Scard): nat {
    if r.at <= |steps| && At(org, steps, r.at).Some? then |Members(At(org, steps, r.at).value.db, r.req)| else 0
  }

  // count_org_tokens: the SCARDs of the sets that SCAN returned, added up.
  ghost function Total(org: string, steps: seq<Step>, scards: seq<Scard>): nat {
    if scards == [] then 0 else Total(org, steps, scards[..|scards| - 1]) + CardAt(org, steps, scards[|scards| - 1])
  }

  // The keys are live from step a to step b.
  ghost predicate Lasting(org: string, steps: seq<Step>, a: nat, b: nat, ks: set<Key>) {
    forall n :: a <= n <= b && n <= |steps| ==> At(org, steps, n).Some? && ks <= At(org, steps, n).value.db.tokens.Keys
  }

  ghost predicate InWindow(scards: seq<Scard>, a: nat, b: nat) {
    forall i :: 0 <= i < |scards| ==> a <= scards[i].at <= b
  }

  // The keys are in their request sets from step a to step b.
  ghost predicate Registered(org: string, steps: seq<Step>, a: nat, b: nat, ks: set<Key>) {
    forall n, k :: a <= n <= b && n <= |steps| && k in ks ==>
      At(org, steps, n).Some? && k.req in At(org, steps, n).value.db.index
      && k.hash in Members(At(org, steps, n).value.db, k.req)
  }

  // Keys of requests whose sets were read are counted.
  lemma {:induction false} ReadsCover(org: string, steps: seq<Step>, a: nat, b: nat, scards: seq<Scard>, ks: set<Key>)
    requires a <= b <= |steps| && InWindow(scards, a, b) && Registered(org, steps, a, b, ks)
    requires forall k :: k in ks ==> Counted(scards, k.req)
    ensures |ks| <= Total(org, steps, scards)
    decreases |scards|
  {
    hide At, Registered, CardAt;
    if scards == [] {
      assert ks == {} by {
        if k :| k in ks { assert false; }
      }
    } else {
      var n, r := |scards| - 1, scards[|scards| - 1];
      var here := set k | k in ks && k.req == r.req;
      var rest := ks - here;
      forall k | k in rest ensures Counted(scards[..n], k.req) {
        var i :| 0 <= i < |scards| && scards[i].req == k.req;
        assert scards[..n][i] == scards[i];
      }
      RegisteredPart(org, steps, a, b, ks, rest);
      ReadsCover(org, steps, a, b, scards[..n], rest);
      CardCovers(org, steps, a, b, ks, here, r);
      assert ks == rest + here && rest !! here;
    }
  }

  lemma RegisteredPart(org: string, steps: seq<Step>, a: nat, b: nat, ks: set<Key>, some: set<Key>)
    requires Registered(org, steps, a, b, ks) && some <= ks
    ensures Registered(org, steps, a, b, some)
  {
  }

  lemma CardCovers(org: string, steps: seq<Step>, a: nat, b: nat, ks: set<Key>, here: set<Key>, r: Scard)
    requires b <= |steps| && a <= r.at <= b && Registered(org, steps, a, b, ks)
    requires here <= ks && forall k :: k in here ==> k.req == r.req
    ensures |here| <= CardAt(org, steps, r)
  {
    hide At;
    if here != {} {
      var one :| one in here;
      assert At(org, steps, r.at).Some?;
      var members := Members(At(org, steps, r.at).value.db, r.req);
      forall k | k in here ensures k in KeysOf(r.req, members) {
        assert k.hash in members && k == Key(r.req, k.hash);
      }
      KeysOfSize(r.req, members);
      SubsetSize(here, KeysOf(r.req, members));
    }
  }

  // The request's set exists from step a to step b.
  ghost predicate SetLasts(org: string, steps: seq<Step>, a: nat, b: nat, req: string) {
    forall n :: a <= n <= b && n <= |steps| ==> At(org, steps, n).Some? && req in At(org, steps, n).value.db.index
  }

  ghost predicate Counted(scards: seq<Scard>, req: string) {
    exists i :: 0 <= i < |scards| && scards[i].req == req
  }

  // SCAN returns at least every set that exists from the start to the end.
  ghost predicate Complete(org: string, steps: seq<Step>, a: nat, b: nat, scards: seq<Scard>) {
    forall req :: SetLasts(org, steps, a, b, req) ==> Counted(scards, req)
  }

  // A count covers the keys that were registered from its start to its end.
  lemma CountCovers(org: string, steps: seq<Step>, a: nat, b: nat, scards: seq<Scard>, ks: set<Key>)
    requires a <= b <= |steps| && InWindow(scards, a, b) && Complete(org, steps, a, b, scards)
    requires Registered(org, steps, a, b, ks)
    ensures |ks| <= Total(org, steps, scards)
  {
    hide At, Counted, InWindow;
    forall k | k in ks ensures Counted(scards, k.req) {
      assert SetLasts(org, steps, a, b, k.req);
    }
    ReadsCover(org, steps, a, b, scards, ks);
  }

  // Whatever runs between its commands, count_org_tokens never reports fewer
  // tokens than were live from its start to its end.
  lemma CountCoversLive(org: string, steps: seq<Step>, a: nat, b: nat, scards: seq<Scard>, ks: set<Key>, ttl: nat)
    requires Run(Init(org), steps).Some? && FixedTtl(steps, ttl) && CleanFlushes(org, steps)
    requires a <= b <= |steps| && InWindow(scards, a, b) && Complete(org, steps, a, b, scards)
    requires Lasting(org, steps, a, b, ks)
    ensures |ks| <= Total(org, steps, scards)
  {
    hide Complete, InWindow, CleanFlushes, FixedTtl;
    assert steps[..|steps|] == steps;
    AlwaysIndexed(org, steps, |steps|, ttl);
    hide At;
    forall n, k | a <= n <= b && n <= |steps| && k in ks
      ensures At(org, steps, n).Some? && k.req in At(org, steps, n).value.db.index
      ensures k.hash in Members(At(org, steps, n).value.db, k.req)
    {
      assert IndexedAt(org, steps, n, ttl);
    }
    CountCovers(org, steps, a, b, scards, ks);
  }
}
