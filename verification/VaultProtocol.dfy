// The vault protocol as an interleaved step system: any number of clients run
// tokenise, get-or-create-DEK, rotate and flush calls, one Redis command (or one
// EXEC) at a time. A client stops by taking no further step.
module VaultProtocol {
  import opened Wrappers
  import opened VaultStore
  import SpanFusion
  import CollisionTracker

  // WATCH in progress: dirty once another command touched a watched key.
  datatype Guard = Unwatched | Watched(dirty: bool) | Checked(dirty: bool)

  // One tokenise call: its request, the wrapped DEK it last read, what its
  // tracker was seeded with, the spans taken up so far with their HMACs, and the
  // entries, tracker and memo they led to.
  datatype Call = Call(req: string, w: Wrapped, ttl: nat, seed: map<string, string>,
                       spans: seq<SpanFusion.Span>, bases: seq<string>, a: CollisionTracker.Assigned)

  // The hash and plaintext being stored.
  datatype Job = Job(hash: string, plain: string)

  function NewCall(req: string, w: Wrapped, ttl: nat, seed: map<string, string>): Call {
    Call(req, w, ttl, seed, [], [], CollisionTracker.Assigned([], seed, map[]))
  }

  // The next span is given an entry; None if no hash is free or its type is unknown.
  function Take(call: Call, span: SpanFusion.Span, base: string): Option<Call> {
    match CollisionTracker.AssignOne(call.a, span, base)
    case None => None
    case Some(a) => Some(call.(spans := call.spans + [span], bases := call.bases + [base], a := a))
  }

  // The hash that the last span taken up was given.
  function LastHash(call: Call): string {
    if call.a.entries == [] then "" else call.a.entries[|call.a.entries| - 1].hash
  }

  datatype Snapshot = Snapshot(dek: Option<Wrapped>, revision: Option<nat>, tokens: map<Key, Cipher>)

  // A prepared rotation: every snapshot token re-encrypted under the new DEK w.
  datatype Plan = Plan(op: string, tries: nat, snap: Snapshot, sealed: map<Key, Cipher>, w: Wrapped)

  datatype Phase =
    | Ready
    | Watching                                // about to GET the recorded result
    | NoResult                                // about to MGET DEK and revision
    | Keys(todo: set<Key>, live: set<Key>)    // about to GET one more key
    | Ttl(k: Key, todo: set<Key>, live: set<Key>)

  datatype Client =
    | Holding(call: Call)
    | Storing(call: Call, job: Job, cipher: Cipher, tries: nat, guard: Guard)
    | Rereading(call: Call, job: Job, tries: nat)
    | Registering(call: Call, job: Job)
    | Tokenized(call: Call)
    | Creating(cand: Wrapped, tries: nat, watch: Guard)
    | HasDek(key: nat)
    | Heading(op: string, tries: nat)
    | Opening(op: string, tries: nat, head: Option<Wrapped>, revision: Option<nat>)
    | Scanning(op: string, tries: nat, snap: Snapshot, start: map<Key, Cipher>)
    | Committing(plan: Plan, phase: Phase, dirty: bool)
    | Rotated(op: string, count: nat)
    | Unlinking(req: string, members: set<string>)
    | Dropping(req: string)
    | Flushed
    | Raised

  const ATTEMPTS := 5

  datatype Touched = Touched(dek: bool, revision: bool, op: Option<string>, keys: set<Key>)

  const NOTHING := Touched(false, false, None, {})

  // What a step does to the plain vault; rotation commits are logged too.
  datatype Event =
    | Put(key: Key, text: string, deadline: nat)
    | Drop(keys: set<Key>)
    | Commit(op: string, count: nat, retired: Option<Wrapped>)

  datatype Move =
    | Tokenize(req: string, ttl: nat, seed: map<string, string>)
    | GetOrCreate
    | Rotate(op: string)
    | Flush(req: string)
    | Detected(span: SpanFusion.Span, base: string)   // the next fused span and its HMAC
    | Command                          // the next command of the program text
    | Fetch(k: Key)                    // GET the next key of a SCAN or of the commit loop
    | Prepare(nonces: map<Key, nat>)   // end of SCAN, decrypt and re-encrypt in memory
    | Return

  datatype Effect = Effect(db: Db, supply: nat, client: Client, touched: Touched, log: seq<Event>)

  function Quietly(db: Db, supply: nat, c: Client): Option<Effect> {
    Some(Effect(db, supply, c, NOTHING, []))
  }

  // The first command of a call.
  function SpawnStep(db: Db, supply: nat, m: Move): Option<Effect> {
    match m
    case Tokenize(req, ttl, seed) =>
      Quietly(db, supply, if db.dek.Some? then Holding(NewCall(req, db.dek.value, ttl, seed)) else Raised)
    case GetOrCreate =>
      if db.dek.Some? then Quietly(db, supply, HasDek(db.dek.value.dek))
      else Quietly(db, supply + 2, Creating(Wrapped(supply, supply + 1), 0, Unwatched))
    case Rotate(op) =>
      Quietly(db, supply, if op in db.results then Rotated(op, db.results[op]) else Heading(op, 0))
    case Flush(req) =>
      Quietly(db, supply, if Members(db, req) == {} then Flushed else Unlinking(req, Members(db, req)))
    case _ => None
  }

  // TokenizeTextUseCase.execute around RedisVaultAdapter.store
  function TokenizeStep(org: string, db: Db, supply: nat, c: Client, m: Move): Option<Effect>
    requires c.Holding? || c.Storing? || c.Rereading? || c.Registering?
  {
    match c
    case Holding(call) =>
      (match m
       case Detected(x, base) =>
         (match Take(call, x, base)
          case None => Quietly(db, supply, Raised)
          case Some(next) =>
            if x.text in call.a.memo then Quietly(db, supply, Holding(next))
            else
              var cipher := Cipher(call.w.dek, org, x.text, supply);
              Quietly(db, supply + 1, Storing(next, Job(LastHash(next), x.text), cipher, 0, Unwatched)))
       case Return => Quietly(db, supply, Tokenized(call))
       case _ => None)
    case Storing(call, job, cipher, tries, guard) =>
      if m != Command then None else
      (match guard
       case Unwatched =>
         if call.ttl == 0 then Quietly(db, supply, Raised)
         else Quietly(db, supply, c.(guard := Watched(false)))
       case Watched(dirty) =>
         if db.dek == Some(call.w) then Quietly(db, supply, c.(guard := Checked(dirty)))
         else Quietly(db, supply, Rereading(call, job, tries + 1))
       case Checked(dirty) =>
         if dirty then Quietly(db, supply, Rereading(call, job, tries + 1))
         else
           var k := Key(call.req, job.hash);
           Some(Effect(StoreTx(db, k, cipher, call.ttl, supply), supply + 1, Registering(call, job),
                       Touched(false, true, None, {k}), [Put(k, job.plain, db.now + call.ttl)])))
    case Rereading(call, job, tries) =>
      if m != Command then None
      else if db.dek.None? || tries >= ATTEMPTS then Quietly(db, supply, Raised)
      else
        var w := db.dek.value;
        Quietly(db, supply + 1,
                Storing(call.(w := w), job, Cipher(w.dek, org, job.plain, supply), tries, Unwatched))
    case Registering(call, job) =>
      if m != Command then None
      else Some(Effect(RegisterTx(db, Key(call.req, job.hash), call.ttl), supply,
                       Holding(call), NOTHING, []))
  }

  // RedisVaultAdapter.set_dek_if_absent
  function CreateStep(db: Db, supply: nat, c: Client, m: Move): Option<Effect>
    requires c.Creating?
  {
    if m != Command then None else
    match c.watch
    case Unwatched => Quietly(db, supply, c.(watch := Watched(false)))
    case Watched(dirty) =>
      if db.dek.Some? then Quietly(db, supply, HasDek(db.dek.value.dek))
      else Quietly(db, supply, c.(watch := Checked(dirty)))
    case Checked(dirty) =>
      if !dirty then
        Some(Effect(db.(dek := Some(c.cand)), supply, HasDek(c.cand.dek), Touched(true, false, None, {}), []))
      else if c.tries + 1 < ATTEMPTS then Quietly(db, supply, Creating(c.cand, c.tries + 1, Unwatched))
      else Quietly(db, supply, Raised)
  }

  // SCAN returns at least every key that was there, untouched, from start to end.
  ghost predicate ScanComplete(db: Db, start: map<Key, Cipher>, found: map<Key, Cipher>) {
    forall k :: k in start && k in db.tokens && db.tokens[k].cipher == start[k] ==> k in found
  }

  ghost predicate FreshNonces(nonces: map<Key, nat>, ks: set<Key>, from: nat, to: nat) {
    && nonces.Keys == ks
    && (forall k :: k in nonces ==> from <= nonces[k] < to)
    && (forall k, l :: k in nonces && l in nonces && nonces[k] == nonces[l] ==> k == l)
  }

  ghost predicate AllOpen(org: string, w: Wrapped, found: map<Key, Cipher>) {
    forall k :: k in found ==> Decrypt(w.dek, org, found[k]).Some?
  }

  // Every snapshot token sealed again under the next DEK of the supply.
  function Prepared(org: string, supply: nat, op: string, tries: nat, snap: Snapshot, nonces: map<Key, nat>): Plan
    requires nonces.Keys == snap.tokens.Keys
  {
    Plan(op, tries, snap, map k | k in snap.tokens :: Cipher(supply, org, snap.tokens[k].plain, nonces[k]),
         Wrapped(supply, supply + 1))
  }

  // RedisVaultAdapter.snapshot_rotation, then the in-memory part of RotateDekUseCase.execute
  ghost function SnapshotStep(org: string, db: Db, supply: nat, c: Client, m: Move): Option<Effect>
    requires c.Heading? || c.Opening? || c.Scanning?
  {
    match c
    case Heading(op, tries) =>
      if m == Command then Quietly(db, supply, Opening(op, tries, db.dek, db.revision)) else None
    case Opening(op, tries, dek, revision) =>
      if m == Command then
        Quietly(db, supply, Scanning(op, tries, Snapshot(dek, revision, map[]),
                                    map k | k in db.tokens :: db.tokens[k].cipher))
      else None
    case Scanning(op, tries, snap, start) =>
      match m
      case Fetch(k) =>
        if k in db.tokens
        then Quietly(db, supply, c.(snap := snap.(tokens := snap.tokens[k := db.tokens[k].cipher])))
        else Quietly(db, supply, c)
      case Prepare(nonces) =>
        if !ScanComplete(db, start, snap.tokens) then None
        else if snap.dek.None? then Quietly(db, supply, Raised)
        else if !AllOpen(org, snap.dek.value, snap.tokens) then Quietly(db, supply, Raised)
        else if !FreshNonces(nonces, snap.tokens.Keys, supply + 2, supply + 2 + |nonces|) then None
        else
          var plan := Prepared(org, supply, op, tries, snap, nonces);
          Quietly(db, supply + 2 + |nonces|, Committing(plan, Ready, false))
      case _ => None
  }

  // commit_rotation returned None: try again, at most ATTEMPTS times.
  function Retry(db: Db, supply: nat, p: Plan): Option<Effect> {
    Quietly(db, supply, if p.tries + 1 < ATTEMPTS then Heading(p.op, p.tries + 1) else Raised)
  }

  // RedisVaultAdapter.commit_rotation
  function CommitStep(db: Db, supply: nat, c: Client, m: Move): Option<Effect>
    requires c.Committing?
  {
    var p := c.plan;
    match c.phase
    case Ready => if m == Command then Quietly(db, supply, Committing(p, Watching, false)) else None
    case Watching =>
      if m != Command then None
      else if p.op in db.results then Quietly(db, supply, Rotated(p.op, db.results[p.op]))
      else Quietly(db, supply, c.(phase := NoResult))
    case NoResult =>
      if m != Command then None
      else if db.dek != p.snap.dek || db.revision != p.snap.revision then Retry(db, supply, p)
      else Quietly(db, supply, c.(phase := Keys(p.snap.tokens.Keys, {})))
    case Keys(todo, live) =>
      (match m
       case Fetch(k) =>
         if k !in todo || k !in p.snap.tokens then None
         else if k !in db.tokens then Quietly(db, supply, c.(phase := Keys(todo - {k}, live)))
         else if db.tokens[k].cipher != p.snap.tokens[k] then Retry(db, supply, p)
         else Quietly(db, supply, c.(phase := Ttl(k, todo - {k}, live)))
       case Command =>
         if todo != {} then None
         else if c.dirty then Retry(db, supply, p)
         else
           Some(Effect(CommitTx(db, live, p.sealed, p.w, supply, p.op), supply + 1, Rotated(p.op, |live|),
                       Touched(true, true, Some(p.op), live), [Commit(p.op, |live|, db.dek)]))
       case _ => None)
    case Ttl(k, todo, live) =>
      if m != Command then None
      else if k !in db.tokens then Quietly(db, supply, Raised)
      else Quietly(db, supply, c.(phase := Keys(todo, live + {k})))
  }

  // RedisVaultAdapter.flush_request: SMEMBERS was the first step, then UNLINK, then DEL
  function FlushStep(db: Db, supply: nat, c: Client, m: Move): Option<Effect>
    requires c.Unlinking? || c.Dropping?
  {
    if m != Command then None else
    match c
    case Unlinking(req, members) =>
      var ks := KeysOf(req, members);
      Some(Effect(UnlinkTx(db, ks), supply, Dropping(req), Touched(false, false, None, ks), [Drop(ks)]))
    case Dropping(req) =>
      Some(Effect(DropSetTx(db, req), supply, Flushed, NOTHING, []))
  }

  ghost function ClientStep(org: string, db: Db, supply: nat, c: Client, m: Move): Option<Effect> {
    match c
    case Holding(_) => TokenizeStep(org, db, supply, c, m)
    case Storing(_, _, _, _, _) => TokenizeStep(org, db, supply, c, m)
    case Rereading(_, _, _) => TokenizeStep(org, db, supply, c, m)
    case Registering(_, _) => TokenizeStep(org, db, supply, c, m)
    case Creating(_, _, _) => CreateStep(db, supply, c, m)
    case Heading(_, _) => SnapshotStep(org, db, supply, c, m)
    case Opening(_, _, _, _) => SnapshotStep(org, db, supply, c, m)
    case Scanning(_, _, _, _) => SnapshotStep(org, db, supply, c, m)
    case Committing(_, _, _) => CommitStep(db, supply, c, m)
    case Unlinking(_, _) => FlushStep(db, supply, c, m)
    case Dropping(_) => FlushStep(db, supply, c, m)
    case _ => None
  }

  // A command that touches a key dirties every WATCH on that key.
  predicate Watches(c: Client, t: Touched) {
    match c
    case Storing(_, _, _, _, guard) => guard != Unwatched && t.dek
    case Creating(_, _, watch) => watch != Unwatched && t.dek
    case Committing(p, phase, _) =>
      phase != Ready && (t.dek || t.revision || t.op == Some(p.op) || t.keys * p.snap.tokens.Keys != {})
    case _ => false
  }

  function Soil(g: Guard): Guard {
    match g
    case Unwatched => g
    case Watched(_) => Watched(true)
    case Checked(_) => Checked(true)
  }

  function Notify(c: Client, t: Touched): Client {
    if !Watches(c, t) then c
    else if c.Committing? then c.(dirty := true)
    else if c.Storing? then c.(guard := Soil(c.guard))
    else if c.Creating? then c.(watch := Soil(c.watch))
    else c
  }

  datatype State = State(org: string, db: Db, supply: nat, clients: map<nat, Client>, log: seq<Event>)

  function Init(org: string): State {
    State(org, EMPTY, 0, map[], [])
  }

  datatype Step =
    | Tick(dt: nat, noticed: set<nat>)   // expiry may or may not dirty a WATCH
    | Spawn(i: nat, m: Move)
    | Act(i: nat, m: Move)

  function Apply(s: State, i: nat, e: Effect): State {
    State(s.org, e.db, e.supply,
          (map j | j in s.clients :: Notify(s.clients[j], e.touched))[i := e.client], s.log + e.log)
  }

  ghost function Next(s: State, step: Step): Option<State> {
    match step
    case Tick(dt, noticed) =>
      var gone := Expired(s.db, s.db.now + dt);
      Some(s.(db := AdvanceTo(s.db, s.db.now + dt),
              clients := map j | j in s.clients ::
                           if j in noticed then Notify(s.clients[j], Touched(false, false, None, gone))
                           else s.clients[j],
              log := s.log + [Drop(gone)]))
    case Spawn(i, m) =>
      if i in s.clients then None
      else (match SpawnStep(s.db, s.supply, m) case None => None case Some(e) => Some(Apply(s, i, e)))
    case Act(i, m) =>
      if i !in s.clients then None
      else (match ClientStep(s.org, s.db, s.supply, s.clients[i], m)
            case None => None case Some(e) => Some(Apply(s, i, e)))
  }

  ghost function Run(s: State, steps: seq<Step>): Option<State>
    decreases |steps|
  {
    if steps == [] then Some(s)
    else match Next(s, steps[0]) case None => None case Some(s') => Run(s', steps[1..])
  }
}
