// The Redis keys of one organisation's vault, symbolic cryptography, and the
// effect of each Redis transaction that the vault adapter issues.
module VaultStore {
  import opened Wrappers

  // A token key ps:{org}:{req}:{hash}; the organisation is fixed.
  datatype Key = Key(req: string, hash: string)

  // Keys and nonces are numbers drawn from one supply that never repeats.
  // A wrapped DEK is the DEK sealed under the KEK with its own nonce.
  datatype Wrapped = Wrapped(dek: nat, nonce: nat)
  datatype Cipher = Cipher(dek: nat, aad: string, plain: string, nonce: nat)

  // Every token key carries an absolute expiry; so does every request set.
  datatype Entry = Entry(cipher: Cipher, deadline: nat)
  datatype ReqSet = ReqSet(members: set<string>, deadline: nat)

  datatype Db = Db(
    now: nat,
    dek: Option<Wrapped>,
    revision: Option<nat>,
    tokens: map<Key, Entry>,
    index: map<string, ReqSet>,
    results: map<string, nat>)

  const EMPTY := Db(0, None, None, map[], map[], map[])

  // Authenticated decryption: the wrong key or the wrong associated data fails.
  function Decrypt(dek: nat, aad: string, c: Cipher): Option<string> {
    if c.dek == dek && c.aad == aad then Some(c.plain) else None
  }

  // What a token decrypts to under the stored DEK, and when it expires.
  datatype Plain = Plain(text: Option<string>, deadline: nat)

  function Read(org: string, db: Db, k: Key): Option<string>
    requires k in db.tokens
  {
    if db.dek.Some? then Decrypt(db.dek.value.dek, org, db.tokens[k].cipher) else None
  }

  function Abs(org: string, db: Db): map<Key, Plain> {
    map k | k in db.tokens :: Plain(Read(org, db, k), db.tokens[k].deadline)
  }

  function Members(db: Db, req: string): set<string> {
    if req in db.index then db.index[req].members else {}
  }

  function KeysOf(req: string, members: set<string>): set<Key> {
    set h | h in members :: Key(req, h)
  }

  lemma {:induction false} KeysOfSize(req: string, members: set<string>)
    ensures |KeysOf(req, members)| == |members|
    decreases |members|
  {
    if members != {} {
      var h :| h in members;
      KeysOfSize(req, members - {h});
      assert KeysOf(req, members) == KeysOf(req, members - {h}) + {Key(req, h)};
    }
  }

  // The (request, hash) pairs whose number count_org_tokens reports.
  function Registered(index: map<string, ReqSet>): set<Key> {
    set r, h | r in index && h in index[r].members :: Key(r, h)
  }

  // SADD + EXPIRE
  function RegisterTx(db: Db, k: Key, ttl: nat): Db {
    db.(index := db.index[k.req := ReqSet(Members(db, k.req) + {k.hash}, db.now + ttl)])
  }

  // SET token EX ttl; SET revision; SADD; EXPIRE
  function StoreTx(db: Db, k: Key, c: Cipher, ttl: nat, revision: nat): Db {
    RegisterTx(db.(tokens := db.tokens[k := Entry(c, db.now + ttl)], revision := Some(revision)), k, ttl)
  }

  // SET XX KEEPTTL for every live key; SET dek; SET revision; SET result
  function CommitTx(db: Db, live: set<Key>, sealed: map<Key, Cipher>, w: Wrapped, revision: nat, op: string): Db
  {
    db.(tokens := map k | k in db.tokens ::
                    if k in live && k in sealed then Entry(sealed[k], db.tokens[k].deadline) else db.tokens[k],
        dek := Some(w),
        revision := Some(revision),
        results := db.results[op := |live|])
  }

  function UnlinkTx(db: Db, ks: set<Key>): Db {
    db.(tokens := db.tokens - ks)
  }

  function DropSetTx(db: Db, req: string): Db {
    db.(index := db.index - {req})
  }

  function Expired(db: Db, t: nat): set<Key> {
    set k | k in db.tokens && db.tokens[k].deadline <= t
  }

  // Time passes and everything past its deadline becomes invisible.
  function AdvanceTo(db: Db, t: nat): Db {
    db.(now := t,
        tokens := db.tokens - Expired(db, t),
        index := map r | r in db.index && t < db.index[r].deadline :: db.index[r])
  }
}
