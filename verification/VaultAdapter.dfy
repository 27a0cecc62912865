// The vault adapter and the rotation and rehydration use cases as they run when
// no other client's command intervenes: each method against the transactions
// and snapshots that the step system uses.
module VaultAdapter {
  import opened Wrappers
  import opened VaultStore
  import opened VaultProtocol
  import opened VaultIndex
  import opened TokenFormat
  import opened TextPipeline

  datatype Rotation = Done(count: nat) | NoDek | Contention | Undecryptable

  // A live token that the stored DEK does not open.
  ghost predicate Corrupt(org: string, db: Db) {
    exists k :: k in db.tokens && Read(org, db, k).None?
  }

  lemma CorruptExact(org: string, db: Db, ciphers: map<Key, Cipher>)
    requires db.dek.Some? && ciphers == map k | k in db.tokens :: db.tokens[k].cipher
    ensures Corrupt(org, db) <==> exists k :: k in ciphers && Decrypt(db.dek.value.dek, org, ciphers[k]).None?
  {
    if Corrupt(org, db) {
      var k :| k in db.tokens && Read(org, db, k).None?;
      assert ciphers[k] == db.tokens[k].cipher;
    }
  }

  // A store that another client completes during a rotation.
  datatype Rival = Rival(key: Key, plain: string, ttl: nat)

  // What the plain vault then holds under its key.
  function Held(r: Rival, now: nat): VaultStore.Plain { VaultStore.Plain.Plain(Some(r.plain), now + r.ttl) }

  // The first round from n on in which no other client stores.
  function FirstQuiet(rivals: seq<Option<Rival>>, n: nat): (m: nat)
    ensures m >= n
    decreases |rivals| - n
  {
    if n < |rivals| && rivals[n].Some? then FirstQuiet(rivals, n + 1) else n
  }

  // The plain vault with the first n rivals' stores.
  function PutAll(m: map<Key, VaultStore.Plain>, rivals: seq<Option<Rival>>, n: nat, now: nat)
    : map<Key, VaultStore.Plain>
  {
    if n == 0 then m
    else
      var before := PutAll(m, rivals, n - 1, now);
      if n <= |rivals| && rivals[n - 1].Some? then
        var r := rivals[n - 1].value;
        before[r.key := Held(r, now)]
      else before
  }

  lemma StoreIsPut(org: string, db: Db, k: Key, c: Cipher, ttl: nat, revision: nat)
    requires db.dek.Some? && c.dek == db.dek.value.dek && c.aad == org
    ensures Abs(org, StoreTx(db, k, c, ttl, revision)) ==
              Abs(org, db)[k := VaultStore.Plain.Plain(Some(c.plain), db.now + ttl)]
    ensures !Corrupt(org, db) ==> !Corrupt(org, StoreTx(db, k, c, ttl, revision))
  {
    var db' := StoreTx(db, k, c, ttl, revision);
    if Corrupt(org, db') {
      var l :| l in db'.tokens && Read(org, db', l).None?;
      assert l in db.tokens && Read(org, db, l).None?;
    }
  }

  // Every live token sealed again, with what it holds.
  ghost predicate Resealed(org: string, db: Db, sealed: map<Key, Cipher>, w: Wrapped) {
    && db.dek.Some? && sealed.Keys == db.tokens.Keys
    && forall k :: k in sealed ==>
         Decrypt(w.dek, org, sealed[k]) == Decrypt(db.dek.value.dek, org, db.tokens[k].cipher)
  }

  // A commit whose ciphertexts open under the new DEK to what the old ones held
  // leaves the plain vault as it is.
  lemma ResealKeeps(org: string, db: Db, sealed: map<Key, Cipher>, w: Wrapped, revision: nat, op: string)
    requires Resealed(org, db, sealed, w)
    ensures Abs(org, CommitTx(db, db.tokens.Keys, sealed, w, revision, op)) == Abs(org, db)
  {
  }

  class RedisVault {
    const org: string
    var now: nat
    var dek: Option<Wrapped>
    var revision: Option<nat>
    var tokens: map<Key, VaultStore.Entry>
    var index: map<string, ReqSet>
    var results: map<string, nat>
    var supply: nat

    function State(): Db
      reads this
    {
      Db(now, dek, revision, tokens, index, results)
    }

    // None is the ValueError for a TTL that is not positive.
    method Store(k: Key, c: Cipher, ttl: int, expected: Wrapped) returns (ok: Option<bool>)
      modifies this
      ensures ok == if ttl <= 0 then None else Some(old(dek) == Some(expected))
      ensures State() == if ok == Some(true) then StoreTx(old(State()), k, c, ttl, old(supply)) else old(State())
      ensures ok == Some(true) ==>
                && k in tokens && tokens[k] == VaultStore.Entry(c, now + ttl)
                && k.req in index && index[k.req] == ReqSet(old(Members(State(), k.req)) + {k.hash}, now + ttl)
      ensures supply == old(supply) + if ok == Some(true) then 1 else 0
    {
      if ttl <= 0 {
        return None;
      }
      if dek != Some(expected) {
        return Some(false);
      }
      tokens := tokens[k := VaultStore.Entry(c, now + ttl)];
      revision := Some(supply);
      supply := supply + 1;
      var members := if k.req in index then index[k.req].members else {};
      index := index[k.req := ReqSet(members + {k.hash}, now + ttl)];
      return Some(true);
    }

    // WATCH, GET, SET, at most five times. rivals[n] is the DEK, if any, that
    // another client stores between the GET and the EXEC of attempt n. The error
    // for contention, None, never comes out: the second attempt finds the rival's.
    method SetDekIfAbsent(w: Wrapped, rivals: seq<Option<Wrapped>>) returns (winner: Option<Wrapped>)
      modifies this
      ensures winner == if old(dek).Some? then old(dek) else if rivals != []
              && rivals[0].Some? then rivals[0] else Some(w)
      ensures State() == old(State()).(dek := winner) && supply == old(supply)
    {
      for n := 0 to ATTEMPTS
        invariant n <= 1 && supply == old(supply)
        invariant n == 0 ==> State() == old(State())
        invariant n == 1 ==>
                    old(dek).None? && rivals != [] && rivals[0].Some? && State() == old(State()).(dek := rivals[0])
      {
        if dek.Some? {
          return dek;
        }
        if n < |rivals| && rivals[n].Some? {
          dek := rivals[n];
        } else {
          dek := Some(w);
          return Some(w);
        }
      }
      return None;
    }

    // SCARD of every request set.
    method CountOrgTokens() returns (total: nat)
      ensures total == |Registered(index)|
    {
      total := 0;
      var rest := index.Keys;
      ghost var seen: set<Key> := {};
      while rest != {}
        invariant rest <= index.Keys
        invariant seen == set k | k in Registered(index) && k.req !in rest
        invariant total == |seen|
      {
        var r :| r in rest;
        ghost var more := KeysOf(r, index[r].members);
        KeysOfSize(r, index[r].members);
        assert more !! seen;
        rest := rest - {r};
        assert (set k | k in Registered(index) && k.req !in rest) == seen + more;
        seen := seen + more;
        total := total + |index[r].members|;
      }
      assert seen == Registered(index);
    }

    method FlushRequest(req: string) returns (unlinked: nat)
      modifies this
      ensures var members := Members(old(State()), req);
              && State() == (if members == {} then old(State())
                             else DropSetTx(UnlinkTx(old(State()), KeysOf(req, members)), req))
              && unlinked == |KeysOf(req, members) * old(tokens).Keys|
      ensures supply == old(supply)
    {
      var members := if req in index then index[req].members else {};
      if members == {} {
        assert KeysOf(req, members) * tokens.Keys == {};
        return 0;
      }
      unlinked := Unlink(KeysOf(req, members));
      index := index - {req};
    }

    method Unlink(ks: set<Key>) returns (count: nat)
      modifies this`tokens
      ensures tokens == old(tokens) - ks && count == |ks * old(tokens).Keys|
    {
      count := 0;
      var rest := ks;
      ghost var hit: set<Key> := {};
      while rest != {}
        invariant rest <= ks
        invariant hit <= ks && count == |hit|
        invariant forall k :: k in hit <==> k in ks && k !in rest && k in old(tokens)
        invariant forall k :: k in tokens <==> k in old(tokens) && k !in hit
        invariant forall k :: k in tokens ==> tokens[k] == old(tokens)[k]
      {
        var k :| k in rest;
        rest := rest - {k};
        if k in tokens {
          tokens := tokens - {k};
          hit := hit + {k};
          count := count + 1;
        }
      }
      assert hit == ks * old(tokens).Keys;
    }

    // MGET of DEK and revision, then SCAN and GET key by key.
    method SnapshotRotation() returns (snap: Snapshot)
      ensures snap == Snapshot(dek, revision, map k | k in tokens :: tokens[k].cipher)
    {
      var found: map<Key, Cipher> := map[];
      var rest := tokens.Keys;
      while rest != {}
        invariant rest <= tokens.Keys && found == map k | k in tokens && k !in rest :: tokens[k].cipher
      {
        var k :| k in rest;
        rest := rest - {k};
        found := found[k := tokens[k].cipher];
      }
      snap := Snapshot(dek, revision, found);
    }

    // What makes commit_rotation answer None: something was written.
    predicate Stale(snap: Snapshot)
      reads this
    {
      || dek != snap.dek || revision != snap.revision
      || exists k :: k in snap.tokens && k in tokens && tokens[k].cipher != snap.tokens[k]
    }

    // The check loop: the snapshot keys still live, or None if one was rewritten.
    method StillLive(snap: Snapshot) returns (live: Option<set<Key>>)
      ensures live.None? <==> exists k :: k in snap.tokens && k in tokens && tokens[k].cipher != snap.tokens[k]
      ensures live.Some? ==> live.value == snap.tokens.Keys * tokens.Keys
    {
      var found: set<Key> := {};
      var todo := snap.tokens.Keys;
      while todo != {}
        invariant todo <= snap.tokens.Keys
        invariant found == (snap.tokens.Keys - todo) * tokens.Keys
        invariant forall k :: k in found ==> tokens[k].cipher == snap.tokens[k]
      {
        var k :| k in todo;
        todo := todo - {k};
        if k in tokens {
          if tokens[k].cipher != snap.tokens[k] {
            return None;
          }
          found := found + {k};
        }
      }
      return Some(found);
    }

    // SET XX KEEPTTL, key by key.
    method Rewrite(live: set<Key>, sealed: map<Key, Cipher>)
      requires live <= sealed.Keys
      modifies this`tokens
      ensures tokens == map k | k in old(tokens) ::
                          if k in live && k in sealed then VaultStore.Entry(sealed[k], old(tokens)[k].deadline)
                          else old(tokens)[k]
    {
      var queue := live;
      while queue != {}
        invariant queue <= live
        invariant tokens.Keys == old(tokens).Keys
        invariant forall k :: k in tokens ==>
                    tokens[k] == if k in live - queue then VaultStore.Entry(sealed[k], old(tokens)[k].deadline)
                                 else old(tokens)[k]
      {
        var k :| k in queue;
        queue := queue - {k};
        if k in tokens {
          tokens := tokens[k := VaultStore.Entry(sealed[k], tokens[k].deadline)];
        }
      }
    }

    method CommitRotation(snap: Snapshot, w: Wrapped, sealed: map<Key, Cipher>, op: string) returns (r: Option<nat>)
      requires sealed.Keys == snap.tokens.Keys
      modifies this
      ensures var live := snap.tokens.Keys * old(tokens).Keys;
              if op in old(results) then r == Some(old(results)[op]) && State() == old(State()) && supply == old(supply)
              else if old(Stale(snap)) then r == None && State() == old(State()) && supply == old(supply)
              else
                && r == Some(|live|) && supply == old(supply) + 1
                && State() == CommitTx(old(State()), live, sealed, w, old(supply), op)
    {
      if op in results {
        return Some(results[op]);
      }
      if dek != snap.dek || revision != snap.revision {
        return None;
      }
      var live := StillLive(snap);
      if live.None? {
        return None;
      }
      Rewrite(live.value, sealed);
      dek := Some(w);
      revision := Some(supply);
      supply := supply + 1;
      results := results[op := |live.value|];
      return Some(|live.value|);
    }

    // Revisions are fresh: the stored one was drawn before the next one.
    predicate FreshRevision()
      reads this
    {
      revision.Some? ==> revision.value < supply
    }

    // A guarded store of another client.
    method Interfere(r: Rival)
      requires dek.Some? && 0 < r.ttl
      modifies this
      ensures supply == old(supply) + 2
      ensures var c := Cipher(old(dek).value.dek, org, r.plain, old(supply));
              State() == StoreTx(old(State()), r.key, c, r.ttl, old(supply) + 1)
    {
      var c := Cipher(dek.value.dek, org, r.plain, supply);
      supply := supply + 1;
      var _ := Store(r.key, c, r.ttl, dek.value);
    }

    // RotateDekUseCase.execute; rivals[n] is the store, if any, that another client
    // completes between the snapshot and the commit of round n. A repeated
    // operation id reports the recorded count; a missing DEK or a ciphertext that
    // does not open changes nothing; otherwise the first undisturbed round of five
    // seals every token, also the rivals', again under a new DEK with its plaintext
    // and its expiry, and without one the vault holds what the rivals stored.
    method RotateDek(op: string, rivals: seq<Option<Rival>>) returns (r: Rotation)
      requires FreshRevision() && forall n :: 0 <= n < |rivals| && rivals[n].Some? ==> 0 < rivals[n].value.ttl
      modifies this
      ensures op in old(results) ==> r == Done(old(results)[op]) && State() == old(State())
      ensures op !in old(results) && old(dek).None? ==> r == NoDek && State() == old(State())
      ensures op !in old(results) && old(dek).Some? && old(Corrupt(org, State())) ==>
                r == Undecryptable && State() == old(State())
      ensures op !in old(results) && old(dek).Some? && !old(Corrupt(org, State())) ==>
                var m := FirstQuiet(rivals, 0);
                && Abs(org, State()) ==
                     PutAll(old(Abs(org, State())), rivals, if m < 5 then m else 5, now)
                && now == old(now) && (m == 0 ==> index == old(index))
                && if m < 5 then
                     && r == Done(|tokens|) && results == old(results)[op := |tokens|]
                     && dek.Some? && old(supply) <= dek.value.dek < supply
                     && revision.Some? && dek.value.dek < revision.value
                   else r == Contention && results == old(results) && dek == old(dek)
      ensures supply >= old(supply) && FreshRevision()
    {
      hide Corrupt, Abs;
      if op in results {
        return Done(results[op]);
      }
      for n := 0 to ATTEMPTS
        invariant supply >= old(supply) && FreshRevision()
        invariant now == old(now) && results == old(results) && dek == old(dek)
        invariant n == 0 ==> State() == old(State())
        invariant n > 0 ==> dek.Some? && !old(Corrupt(org, State())) && !Corrupt(org, State())
        invariant FirstQuiet(rivals, 0) == FirstQuiet(rivals, n) >= n
        invariant Abs(org, State()) == PutAll(old(Abs(org, State())), rivals, n, now)
      {
        var end := Round(op, if n < |rivals| then rivals[n] else None);
        if end.Some? {
          return end.value;
        }
      }
      return Contention;
    }

    // One round: snapshot, re-encryption, the rival's store if any, commit.
    // Without an answer the rotation goes on to the next round.
    method Round(op: string, rival: Option<Rival>) returns (end: Option<Rotation>)
      requires FreshRevision() && op !in results && (rival.Some? ==> 0 < rival.value.ttl)
      modifies this
      ensures old(dek).None? ==> end == Some(NoDek) && State() == old(State()) && supply == old(supply)
      ensures old(dek).Some? && old(Corrupt(org, State())) ==> end == Some(Undecryptable) && State() == old(State())
      ensures old(dek).Some? && !old(Corrupt(org, State())) && rival.Some? ==>
                && end == None && dek == old(dek) && results == old(results) && !Corrupt(org, State())
                && Abs(org, State()) == old(Abs(org, State()))[rival.value.key := Held(rival.value, now)]
      ensures old(dek).Some? && !old(Corrupt(org, State())) && rival.None? ==>
                && end == Some(Done(|tokens|)) && results == old(results)[op := |tokens|] && index == old(index)
                && Abs(org, State()) == old(Abs(org, State()))
                && dek.Some? && old(supply) <= dek.value.dek < supply
                && revision.Some? && dek.value.dek < revision.value
      ensures supply >= old(supply) && FreshRevision() && now == old(now)
    {
      hide Corrupt, Abs, Resealed, Decrypt;
      var snap := SnapshotRotation();
      if snap.dek.None? {
        return Some(NoDek);
      }
      var w, sealed := Reencrypt(snap);
      if sealed.None? {
        return Some(Undecryptable);
      }
      if rival.Some? {
        Overtaken(op, rival.value, snap, w, sealed.value);
        return None;
      }
      var count := Undisturbed(op, snap, w, sealed.value);
      return Some(Done(count));
    }

    // A store between snapshot and commit: the commit is refused.
    method Overtaken(op: string, r: Rival, snap: Snapshot, w: Wrapped, sealed: map<Key, Cipher>)
      requires dek.Some? && snap.dek == dek && snap.revision == revision && sealed.Keys == snap.tokens.Keys
      requires FreshRevision() && op !in results && 0 < r.ttl && !Corrupt(org, State())
      modifies this
      ensures dek == old(dek) && results == old(results) && now == old(now) && !Corrupt(org, State())
      ensures Abs(org, State()) == old(Abs(org, State()))[r.key := Held(r, now)]
      ensures supply >= old(supply) && FreshRevision()
    {
      hide Corrupt, Abs, Decrypt, CommitTx;
      StoreIsPut(org, State(), r.key, Cipher(dek.value.dek, org, r.plain, supply), r.ttl, supply + 1);
      Interfere(r);
      assert Stale(snap) by { assert revision != snap.revision; }
      var _ := CommitRotation(snap, w, sealed, op);
    }

    method Undisturbed(op: string, snap: Snapshot, w: Wrapped, sealed: map<Key, Cipher>) returns (count: nat)
      requires snap == Snapshot(dek, revision, map k | k in tokens :: tokens[k].cipher)
      requires Resealed(org, State(), sealed, w) && sealed.Keys == snap.tokens.Keys && op !in results && w.dek < supply
      modifies this
      ensures count == |tokens| && results == old(results)[op := |tokens|] && index == old(index) && now == old(now)
      ensures Abs(org, State()) == old(Abs(org, State()))
      ensures dek == Some(w) && revision == Some(old(supply)) && supply == old(supply) + 1
    {
      hide Abs, Resealed, Decrypt;
      assert snap.tokens.Keys * tokens.Keys == tokens.Keys;
      ResealKeeps(org, State(), sealed, w, supply, op);
      var r := CommitRotation(snap, w, sealed, op);
      assert tokens.Keys == old(tokens).Keys && |tokens.Keys| == |tokens|;
      count := r.value;
    }

    // Every token of the snapshot under a new DEK.
    method Reencrypt(snap: Snapshot) returns (w: Wrapped, sealed: Option<map<Key, Cipher>>)
      requires dek.Some? && snap == Snapshot(dek, revision, map k | k in tokens :: tokens[k].cipher)
      modifies this`supply
      ensures w.dek == old(supply) < supply
      ensures sealed.None? <==> Corrupt(org, State())
      ensures sealed.Some? ==> sealed.value.Keys == snap.tokens.Keys && Resealed(org, State(), sealed.value, w)
    {
      hide Decrypt, Read, Corrupt;
      w := Wrapped(supply, supply + 1);
      supply := supply + 2;
      sealed := Reseal(snap, w);
      CorruptExact(org, State(), snap.tokens);
    }

    // Decrypt every snapshot token under the old DEK and encrypt it under the new.
    method Reseal(snap: Snapshot, w: Wrapped) returns (sealed: Option<map<Key, Cipher>>)
      requires snap.dek.Some?
      modifies this`supply
      ensures sealed.None? <==> exists k :: k in snap.tokens && Decrypt(snap.dek.value.dek, org, snap.tokens[k]).None?
      ensures sealed.Some? ==>
                && sealed.value.Keys == snap.tokens.Keys
                && forall k :: k in snap.tokens ==>
                     Decrypt(w.dek, org, sealed.value[k]) == Decrypt(snap.dek.value.dek, org, snap.tokens[k])
      ensures supply >= old(supply)
    {
      var done: map<Key, Cipher> := map[];
      var rest := snap.tokens.Keys;
      while rest != {}
        invariant rest <= snap.tokens.Keys && done.Keys == snap.tokens.Keys - rest && supply >= old(supply)
        invariant forall k :: k in done ==>
                    && Decrypt(snap.dek.value.dek, org, snap.tokens[k]).Some?
                    && Decrypt(w.dek, org, done[k]) == Decrypt(snap.dek.value.dek, org, snap.tokens[k])
      {
        var k :| k in rest;
        rest := rest - {k};
        var plain := Decrypt(snap.dek.value.dek, org, snap.tokens[k]);
        if plain.None? {
          return None;
        }
        done := done[k := Cipher(w.dek, org, plain.value, supply)];
        supply := supply + 1;
      }
      return Some(done);
    }

    // RehydrateTextUseCase.execute; None is its error for ciphertexts without a DEK.
    method Rehydrate(req: string, text: string) returns (r: Option<(string, nat)>)
      ensures r.None? <==> dek.None? && exists f :: f in FindAll(text) && Key(req, f.hash) in tokens
      ensures r.Some? ==>
                && r.value.0 == Rehydrated(text, Lookup(org, State(), req))
                && r.value.1 == |TokenEdits(FindAll(text), Lookup(org, State(), req))|
    {
      var found := FindAllTokens(text);
      ghost var plain := Lookup(org, State(), req);
      var hashes := set f | f in found :: f.hash;
      var live := set h | h in hashes && Key(req, h) in tokens;
      if live == {} {
        forall f | f in found ensures Key(req, f.hash) !in tokens && f.hash !in plain {
          assert f.hash in hashes && f.hash !in live;
        }
        InertStays(text, plain);
        NoEdits(found, plain);
        return Some((text, 0));
      }
      if dek.None? {
        var h :| h in live;
        return None;
      }
      var decrypted: map<string, string> := map[];
      var rest := live;
      while rest != {}
        invariant rest <= live
        invariant forall h :: h in decrypted <==> h in live - rest && h in plain
        invariant forall h :: h in decrypted ==> decrypted[h] == plain[h]
      {
        var h :| h in rest;
        rest := rest - {h};
        var clear := Decrypt(dek.value.dek, org, tokens[Key(req, h)].cipher);
        assert Key(req, h) in tokens && Key(req, h).req == req;
        if clear.Some? {
          decrypted := decrypted[h := clear.value];
        }
      }
      forall f | f in found ensures f.hash in decrypted <==> f.hash in plain {
        assert f.hash in hashes;
      }
      SameFill(text, decrypted, plain);
      var result, count := ReplaceTokens(text, found, decrypted);
      return Some((result, count));
    }
  }

  lemma {:induction false} NoEdits(found: seq<Found>, plain: map<string, string>)
    requires forall f :: f in found ==> f.hash !in plain
    ensures TokenEdits(found, plain) == []
    decreases |found|
  {
    if found != [] {
      NoEdits(found[1..], plain);
    }
  }

  // Two lookups that agree on the tokens of a text rehydrate it alike.
  lemma SameFill(text: string, a: map<string, string>, b: map<string, string>)
    requires forall f :: f in FindAll(text) ==>
               (f.hash in a <==> f.hash in b) && (f.hash in a ==> a[f.hash] == b[f.hash])
    ensures Rehydrated(text, a) == Rehydrated(text, b)
    ensures TokenEdits(FindAll(text), a) == TokenEdits(FindAll(text), b)
  {
    FillIsSplice(text, 0, a);
    FillIsSplice(text, 0, b);
    assert text[0..] == text;
    SameEdits(FindAll(text), a, b);
  }

  lemma {:induction false} SameEdits(found: seq<Found>, a: map<string, string>, b: map<string, string>)
    requires forall f :: f in found ==> (f.hash in a <==> f.hash in b) && (f.hash in a ==> a[f.hash] == b[f.hash])
    ensures TokenEdits(found, a) == TokenEdits(found, b)
    decreases |found|
  {
    if found != [] {
      assert found[0] in found;
      SameEdits(found[1..], a, b);
    }
  }
}
