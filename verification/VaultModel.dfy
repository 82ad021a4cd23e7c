/**
 * The vault as values: what is stored, which key opens it, and one transition for every operation of
 * CryptoService (electron/services/CryptoService.ts). Encryption is abstract: a blob remembers the
 * key that sealed it and opens under no other.
 */
module VaultModel {
  import opened Basics
  import opened VaultKeyPlan

  const KEY_LEN := 32

  type Key = k: seq<byte> | |k| == KEY_LEN witness seq(KEY_LEN, _ => 0)

  /** PBKDF2, left uninterpreted: a password and a salt give a key. */
  type Kdf = (string, seq<byte>) -> Key

  datatype Blob = Blob(sealedBy: Key, plain: seq<byte>)

  function Open(k: Key, blob: Blob): Option<seq<byte>> {
    if blob.sealedBy == k then Some(blob.plain) else None
  }

  /** The octets of 'ternix-vault-verifier-v1'. */
  const VERIFIER: seq<byte> :=
    [116, 101, 114, 110, 105, 120, 45, 118, 97, 117, 108, 116, 45,
     118, 101, 114, 105, 102, 105, 101, 114, 45, 118, 49]

  // ---- the database ----

  datatype SessionRow = SessionRow(password: Option<Blob>, passphrase: Option<Blob>, vncPassword: Option<Blob>)

  datatype Meta = Meta(salt: Option<seq<byte>>, verifier: Option<Blob>, usingKeychain: bool)

  datatype Db = Db(sessions: map<nat, SessionRow>, keys: map<nat, Blob>, meta: Meta)

  predicate UnderOpt(b: Option<Blob>, k: Key) { b.Some? ==> b.value.sealedBy == k }

  predicate RowUnder(r: SessionRow, k: Key) {
    UnderOpt(r.password, k) && UnderOpt(r.passphrase, k) && UnderOpt(r.vncPassword, k)
  }

  /** Every stored secret is sealed by `k`. */
  predicate AllUnder(db: Db, k: Key) {
    && (forall id | id in db.sessions :: RowUnder(db.sessions[id], k))
    && (forall id | id in db.keys :: db.keys[id].sealedBy == k)
  }

  predicate RowHasSecret(r: SessionRow) {
    r.password.Some? || r.passphrase.Some? || r.vncPassword.Some?
  }

  predicate HasSecrets(db: Db) {
    (exists id | id in db.sessions :: RowHasSecret(db.sessions[id])) || (exists id :: id in db.keys)
  }

  function ResealOpt(b: Option<Blob>, k: Key): Option<Blob> {
    if b.None? then None else Some(Blob(k, b.value.plain))
  }

  function ResealRow(r: SessionRow, k: Key): SessionRow {
    SessionRow(ResealOpt(r.password, k), ResealOpt(r.passphrase, k), ResealOpt(r.vncPassword, k))
  }

  /** The same rows and plaintexts, every blob sealed by `k`. */
  function Reseal(db: Db, k: Key): Db {
    Db(map id | id in db.sessions :: ResealRow(db.sessions[id], k),
       map id | id in db.keys :: Blob(k, db.keys[id].plain),
       db.meta)
  }

  // ---- what a reader of the vault sees ----

  datatype Cell = Password(id: nat) | Passphrase(id: nat) | VncPassword(id: nat) | PrivateKey(id: nat)

  function BlobAt(db: Db, c: Cell): Option<Blob> {
    match c
    case Password(id) => if id in db.sessions then db.sessions[id].password else None
    case Passphrase(id) => if id in db.sessions then db.sessions[id].passphrase else None
    case VncPassword(id) => if id in db.sessions then db.sessions[id].vncPassword else None
    case PrivateKey(id) => if id in db.keys then Some(db.keys[id]) else None
  }

  /** The plaintext last put into a cell, whatever key seals it now. */
  function PlainAt(db: Db, c: Cell): Option<seq<byte>> {
    if BlobAt(db, c).Some? then Some(BlobAt(db, c).value.plain) else None
  }

  /** `k` reads back every secret that is stored. */
  ghost predicate Reads(db: Db, k: Key) {
    forall c :: BlobAt(db, c).Some? ==> Open(k, BlobAt(db, c).value) == PlainAt(db, c)
  }

  // ---- persisted key material and its faults ----

  /** Raw contents of the OS keychain entry and of the 0600 key file. */
  datatype KeyStore = KeyStore(keychain: Option<seq<byte>>, file: Option<seq<byte>>)

  /** A stored value of the wrong length is no key. */
  function AsKey(raw: Option<seq<byte>>): Option<Key> {
    if raw.Some? && |raw.value| == KEY_LEN then Some(raw.value) else None
  }

  /** The key of record: the file when it holds one, else the keychain. */
  function Effective(s: KeyStore): Option<Key> {
    if AsKey(s.file).Some? then AsKey(s.file) else AsKey(s.keychain)
  }

  datatype FileWrite = Written | Broken(left: Option<seq<byte>>)

  /**
   * The adversary's choices for one key resolution. A keychain read may throw, and so may reading the key file,
   * which the service takes for no file; a keychain write may throw or not and leaves whatever `writeLeaves` says
   * (the new key, the old entry, garbage, nothing); a failing file write leaves anything at all; removing the file
   * may fail.
   */
  datatype Faults = Faults(
    keytarLoads: bool, readThrows: bool, fileReadThrows: bool,
    writeThrows: bool, writeLeaves: Option<seq<byte>>, readBackThrows: bool,
    fileWrite: FileWrite, unlinkThrows: bool)

  datatype LoadOutcome = Loaded(key: Key) | Refused | FileWriteFailed

  function WriteFile(s: KeyStore, key: Key, f: Faults): (LoadOutcome, KeyStore) {
    match f.fileWrite
    case Written => (Loaded(key), s.(file := Some(key)))
    case Broken(left) => (FileWriteFailed, s.(file := left))
  }

  predicate Reachable(f: Faults) { f.keytarLoads && !f.readThrows }

  /** The key file as the service sees it. */
  function FileSeen(s: KeyStore, f: Faults): Option<Key> {
    if f.fileReadThrows then None else AsKey(s.file)
  }

  /** The keychain took the key and gave it back. */
  predicate Stored(f: Faults, key: Key) {
    !f.writeThrows && !f.readBackThrows && AsKey(f.writeLeaves) == Some(key)
  }

  /**
   * A key file that is there could not be read, and the keychain supplies another key: one it already held, or the
   * one just minted over an empty vault.
   */
  predicate Misled(s: KeyStore, vaultHasSecrets: bool, f: Faults, minted: Key) {
    && f.fileReadThrows && AsKey(s.file).Some? && Reachable(f)
    && if AsKey(s.keychain).Some? then AsKey(s.keychain) != AsKey(s.file)
    else !vaultHasSecrets && Stored(f, minted) && AsKey(s.file) != Some(minted)
  }

  /**
   * Resolving the keychain-mode key. `minted` is the random key drawn if one has to be made. A key that is handed
   * out is the key of record afterwards exactly unless a key file went unread beside a different keychain key; apart
   * from that it was the key of record before unless the vault is empty. Refusing is exactly "secrets, no key file
   * in sight, no keychain key in sight" and touches nothing. A key file that was read disappears only once the
   * keychain holds the same key and read it back, and then it does unless unlinking fails; one that was not is
   * replaced only over an empty vault. What was found is left where it was, and a key that is minted goes to the
   * keychain alone if that takes it, else to the file.
   */
  function LoadKey(s: KeyStore, vaultHasSecrets: bool, f: Faults, minted: Key): (r: (LoadOutcome, KeyStore))
    ensures r.0.Loaded? ==> (Effective(r.1) == Some(r.0.key) <==> !Misled(s, vaultHasSecrets, f, minted))
    ensures r.0.Loaded? && !Misled(s, vaultHasSecrets, f, minted) ==>
      Effective(s) == Some(r.0.key) || (!vaultHasSecrets && r.0.key == minted)
    ensures Misled(s, vaultHasSecrets, f, minted) ==> r.0.Loaded? && Effective(r.1) == AsKey(s.file)
    ensures FileSeen(s, f).Some? ==> r.0 == Loaded(FileSeen(s, f).value)
    ensures r.0.Refused? <==> vaultHasSecrets && FileSeen(s, f).None? && !(Reachable(f) && AsKey(s.keychain).Some?)
    ensures r.0.Refused? ==> r.1 == s
    ensures r.0.FileWriteFailed? ==> !vaultHasSecrets && FileSeen(s, f).None?
    ensures r.0.Loaded? && FileSeen(s, f).Some? && r.1.file != s.file ==>
      r.1 == KeyStore(Some(r.0.key), None) && Reachable(f) && !f.writeThrows && !f.readBackThrows
    ensures FileSeen(s, f).None? && r.1.file != s.file ==> !vaultHasSecrets
    ensures FileSeen(s, f).Some? ==>
      var k := FileSeen(s, f).value;
      && (r.1.file.None? <==> Reachable(f) && Stored(f, k) && !f.unlinkThrows)
      && (r.1.file.None? ==> AsKey(r.1.keychain) == Some(k))
    ensures FileSeen(s, f).None? && Reachable(f) && AsKey(s.keychain).Some? ==>
      r == (Loaded(AsKey(s.keychain).value), s)
    ensures FileSeen(s, f).None? && !(Reachable(f) && AsKey(s.keychain).Some?) && r.0.Loaded? ==>
      && r.0.key == minted
      && if Reachable(f) && Stored(f, minted) then AsKey(r.1.keychain) == Some(minted) && r.1.file == s.file
      else r.1.file == Some(minted)
    ensures !Reachable(f) ==> r.1.keychain == s.keychain
  {
    var keychainKey := if Reachable(f) then AsKey(s.keychain) else None;
    var fileKey := FileSeen(s, f);
    var plan := PlanVaultKey(Reachable(f), keychainKey.Some?, fileKey.Some?, vaultHasSecrets);
    if plan.use == Refuse then (Refused, s)
    else
      var key := if plan.use == UseKeychain then keychainKey.value
                 else if plan.use == UseFile then fileKey.value
                 else minted;
      var s1 := if plan.writeKeychain then s.(keychain := f.writeLeaves) else s;
      if plan.writeKeychain && !Stored(f, key) then
        if fileKey.Some? then (Loaded(key), s1) else WriteFile(s1, key, f)
      else if plan.writeFile then WriteFile(s1, key, f)
      else if plan.removeFile && !f.unlinkThrows then (Loaded(key), s1.(file := None))
      else (Loaded(key), s1)
  }

  // ---- the running service ----

  /** Disk, keychain, key file and the fields of the running process. */
  datatype World = World(db: Db, store: KeyStore, usingKeychain: bool, key: Option<Key>)

  function Init(w: World, f: Faults, minted: Key): (World, bool) {
    var w0 := w.(usingKeychain := w.db.meta.usingKeychain, key := None);
    if w0.usingKeychain then
      var (r, store) := LoadKey(w.store, HasSecrets(w.db), f, minted);
      (w0.(store := store, key := if r.Loaded? then Some(r.key) else None), r.Loaded?)
    else (w0, true)
  }

  function Lock(w: World): World {
    if w.usingKeychain then w else w.(key := None)
  }

  function Unlock(w: World, password: string, kdf: Kdf): (World, bool) {
    var m := w.db.meta;
    if m.salt.None? || m.verifier.None? then (w, false)
    else
      var candidate := kdf(password, m.salt.value);
      if Open(candidate, m.verifier.value) == Some(VERIFIER) then (w.(key := Some(candidate)), true) else (w, false)
  }

  /** The key the stored secrets are under now, or None when it cannot be had. */
  function CurrentKey(w: World, oldPassword: Option<string>, f: Faults, minted: Key, kdf: Kdf): (World, Option<Key>) {
    if w.usingKeychain then
      if w.key.Some? then (w, w.key)
      else
        var (r, store) := LoadKey(w.store, true, f, minted);
        (w.(store := store), if r.Loaded? then Some(r.key) else None)
    else if oldPassword.None? then (w, None)
    else
      var (w', ok) := Unlock(w, oldPassword.value, kdf);
      (w', if ok then w'.key else None)
  }

  /** The transaction both mode switches run: re-encrypt everything, or change nothing. */
  function Rekey(db: Db, oldKey: Key, newKey: Key, meta: Meta): (Db, bool) {
    if AllUnder(db, oldKey) then (Reseal(db, newKey).(meta := meta), true) else (db, false)
  }

  function SetMasterPassword(w: World, oldPassword: Option<string>, newPassword: string, salt: seq<byte>,
                             f: Faults, minted: Key, kdf: Kdf): (World, bool) {
    var (w1, oldKey) := CurrentKey(w, oldPassword, f, minted, kdf);
    if oldKey.None? then (w1, false)
    else
      var newKey := kdf(newPassword, salt);
      var (db, ok) := Rekey(w1.db, oldKey.value, newKey, Meta(Some(salt), Some(Blob(newKey, VERIFIER)), false));
      if ok then (w1.(db := db, usingKeychain := false, key := Some(newKey)), true) else (w1, false)
  }

  function RemoveMasterPassword(w: World, password: string, f: Faults, minted: Key, kdf: Kdf): (World, bool) {
    var (w1, ok) := Unlock(w, password, kdf);
    if !ok then (w1, false)
    else
      var (r, store) := LoadKey(w1.store, false, f, minted);
      var w2 := w1.(store := store);
      if !r.Loaded? then (w2, false)
      else
        var (db, done) := Rekey(w2.db, w2.key.value, r.key, Meta(None, None, true));
        if done then (w2.(db := db, usingKeychain := true, key := Some(r.key)), true) else (w2, false)
  }

  function PutBlob(db: Db, c: Cell, b: Blob): Db {
    match c
    case Password(id) =>
      if id in db.sessions then db.(sessions := db.sessions[id := db.sessions[id].(password := Some(b))]) else db
    case Passphrase(id) =>
      if id in db.sessions then db.(sessions := db.sessions[id := db.sessions[id].(passphrase := Some(b))]) else db
    case VncPassword(id) =>
      if id in db.sessions then db.(sessions := db.sessions[id := db.sessions[id].(vncPassword := Some(b))]) else db
    case PrivateKey(id) => db.(keys := db.keys[id := b])
  }

  /** Saving a secret: a locked vault throws, and an empty plaintext stores nothing. */
  function Save(w: World, c: Cell, plain: seq<byte>): World {
    if w.key.None? || plain == [] then w else w.(db := PutBlob(w.db, c, Blob(w.key.value, plain)))
  }

  datatype Op =
    | OpRestart(f: Faults, minted: Key)
    | OpAddSession(id: nat)
    | OpDeleteSession(id: nat)
    | OpDeleteKey(id: nat)
    | OpSave(cell: Cell, plain: seq<byte>)
    | OpLock
    | OpUnlock(password: string)
    | OpSetMaster(oldPassword: Option<string>, newPassword: string, salt: seq<byte>, f: Faults, minted: Key)
    | OpRemoveMaster(password: string, f: Faults, minted: Key)

  function Step(w: World, op: Op, kdf: Kdf): World {
    match op
    case OpRestart(f, minted) => Init(w, f, minted).0
    case OpAddSession(id) =>
      if id in w.db.sessions then w
      else w.(db := w.db.(sessions := w.db.sessions[id := SessionRow(None, None, None)]))
    case OpDeleteSession(id) => w.(db := w.db.(sessions := w.db.sessions - {id}))
    case OpDeleteKey(id) => w.(db := w.db.(keys := w.db.keys - {id}))
    case OpSave(c, plain) => Save(w, c, plain)
    case OpLock => Lock(w)
    case OpUnlock(password) => Unlock(w, password, kdf).0
    case OpSetMaster(oldPassword, newPassword, salt, f, minted) =>
      SetMasterPassword(w, oldPassword, newPassword, salt, f, minted, kdf).0
    case OpRemoveMaster(password, f, minted) => RemoveMasterPassword(w, password, f, minted, kdf).0
  }

  function Run(w: World, ops: seq<Op>, kdf: Kdf): World
    decreases |ops|
  {
    if ops == [] then w else Run(Step(w, ops[0], kdf), ops[1..], kdf)
  }

  /**
   * One key for everything. In keychain mode it is the key of record; in password mode it is the key
   * that seals the verifier; and a key held in memory is never any other.
   */
  ghost predicate Sound(w: World) {
    && w.usingKeychain == w.db.meta.usingKeychain
    && (if w.usingKeychain then
          && w.db.meta.salt.None?
          && (w.key.Some? ==> Effective(w.store) == w.key)
          && (HasSecrets(w.db) ==> Effective(w.store).Some? && AllUnder(w.db, Effective(w.store).value))
        else
          && w.db.meta.salt.Some? && w.db.meta.verifier.Some?
          && w.db.meta.verifier.value.plain == VERIFIER
          && AllUnder(w.db, w.db.meta.verifier.value.sealedBy)
          && (w.key.Some? ==> w.key.value == w.db.meta.verifier.value.sealedBy))
  }

  predicate FreshInstall(w: World) {
    w.db == Db(map[], map[], Meta(None, None, true)) && w.usingKeychain && w.key.None?
  }

  // ---- lemmas ----

  lemma AllUnderReads(db: Db, k: Key)
    requires AllUnder(db, k)
    ensures Reads(db, k)
  {}

  lemma EmptyIsUnderAnyKey(db: Db, k: Key)
    requires !HasSecrets(db)
    ensures AllUnder(db, k)
  {
    forall id | id in db.sessions ensures RowUnder(db.sessions[id], k) { assert !RowHasSecret(db.sessions[id]); }
  }

  lemma ResealKeepsPlain(db: Db, k: Key, c: Cell)
    ensures PlainAt(Reseal(db, k), c) == PlainAt(db, c)
    ensures BlobAt(Reseal(db, k), c).None? <==> BlobAt(db, c).None?
  {}

  lemma ResealKeepsHavingSecrets(db: Db, k: Key)
    ensures HasSecrets(Reseal(db, k)) <==> HasSecrets(db)
  {
    var r := Reseal(db, k);
    if exists id | id in db.sessions :: RowHasSecret(db.sessions[id]) {
      var id :| id in db.sessions && RowHasSecret(db.sessions[id]);
      assert RowHasSecret(r.sessions[id]);
    }
    if exists id | id in r.sessions :: RowHasSecret(r.sessions[id]) {
      var id :| id in r.sessions && RowHasSecret(r.sessions[id]);
      assert RowHasSecret(db.sessions[id]);
    }
    assert forall id :: id in r.keys <==> id in db.keys;
  }

  lemma ResealIsUnder(db: Db, k: Key)
    ensures AllUnder(Reseal(db, k), k)
  {}

  lemma ResealMovesEverySecret(db: Db, k: Key)
    ensures AllUnder(Reseal(db, k), k)
    ensures forall c :: PlainAt(Reseal(db, k), c) == PlainAt(db, c)
    ensures HasSecrets(Reseal(db, k)) <==> HasSecrets(db)
  {
    ResealIsUnder(db, k);
    ResealKeepsHavingSecrets(db, k);
    forall c ensures PlainAt(Reseal(db, k), c) == PlainAt(db, c) { ResealKeepsPlain(db, k, c); }
  }

  lemma MetaChangesNoSeal(db: Db, meta: Meta, k: Key)
    requires AllUnder(db, k)
    ensures AllUnder(db.(meta := meta), k)
  {}

  lemma MetaHoldsNoSecret(db: Db, meta: Meta, c: Cell)
    ensures PlainAt(db.(meta := meta), c) == PlainAt(db, c) && BlobAt(db.(meta := meta), c) == BlobAt(db, c)
  {}

  /** Re-encryption is all or nothing, and no plaintext changes either way. */
  lemma RekeyIsAllOrNothing(db: Db, oldKey: Key, newKey: Key, meta: Meta)
    ensures var (db', ok) := Rekey(db, oldKey, newKey, meta);
            && (ok <==> Reads(db, oldKey))
            && (ok ==> Reads(db', newKey) && AllUnder(db', newKey) && db'.meta == meta)
            && (!ok ==> db' == db)
            && (forall c :: PlainAt(db', c) == PlainAt(db, c))
            && (forall c :: BlobAt(db', c).None? <==> BlobAt(db, c).None?)
  {
    ReadsIsAllUnder(db, oldKey);
    if AllUnder(db, oldKey) { ResealingIsSafe(db, newKey, meta); }
  }

  lemma ResealingIsSafe(db: Db, newKey: Key, meta: Meta)
    ensures var db' := Reseal(db, newKey).(meta := meta);
            && Reads(db', newKey) && AllUnder(db', newKey)
            && (forall c :: PlainAt(db', c) == PlainAt(db, c))
            && (forall c :: BlobAt(db', c).None? <==> BlobAt(db, c).None?)
  {
    var sealed := Reseal(db, newKey);
    ResealIsUnder(db, newKey);
    MetaChangesNoSeal(sealed, meta, newKey);
    forall c
      ensures PlainAt(sealed.(meta := meta), c) == PlainAt(db, c)
      ensures BlobAt(sealed.(meta := meta), c).None? <==> BlobAt(db, c).None?
    {
      ResealKeepsPlain(db, newKey, c);
      MetaHoldsNoSecret(sealed, meta, c);
    }
    AllUnderReads(sealed.(meta := meta), newKey);
  }

  lemma ReadsIsAllUnder(db: Db, k: Key)
    ensures Reads(db, k) <==> AllUnder(db, k)
  {
    if Reads(db, k) {
      forall id | id in db.sessions ensures RowUnder(db.sessions[id], k) {
        assert BlobAt(db, Password(id)) == db.sessions[id].password;
        assert BlobAt(db, Passphrase(id)) == db.sessions[id].passphrase;
        assert BlobAt(db, VncPassword(id)) == db.sessions[id].vncPassword;
      }
      forall id | id in db.keys ensures db.keys[id].sealedBy == k {
        assert BlobAt(db, PrivateKey(id)) == Some(db.keys[id]);
      }
    }
  }
}
