/**
 * The vault's promise over whole runs: whatever the keychain does, no stored secret becomes unreadable. It holds
 * exactly as long as no key file goes unread beside a keychain that supplies another key.
 */
module VaultRuns {
  import opened Basics
  import opened VaultModel

  // ---- every operation keeps the vault sound ----

  lemma InitKeepsSound(w: World, f: Faults, minted: Key)
    requires Sound(w)
    ensures Sound(Init(w, f, minted).0) <==> !(w.usingKeychain && Misled(w.store, HasSecrets(w.db), f, minted))
  {
    if !HasSecrets(w.db) {
      var k := Effective(Init(w, f, minted).0.store);
      if k.Some? { EmptyIsUnderAnyKey(w.db, k.value); }
    }
  }

  lemma CurrentKeyKeepsSound(w: World, oldPassword: Option<string>, f: Faults, minted: Key, kdf: Kdf)
    requires Sound(w)
    ensures var (w1, k) := CurrentKey(w, oldPassword, f, minted, kdf);
      && Sound(w1) && w1.db == w.db && w1.usingKeychain == w.usingKeychain
      && (w.usingKeychain && w.key.Some? ==> k == w.key && AllUnder(w.db, k.value))
      && (!w.usingKeychain && k.Some? ==> AllUnder(w.db, k.value))
  {
    var (w1, k) := CurrentKey(w, oldPassword, f, minted, kdf);
    if k.Some? && !HasSecrets(w.db) { EmptyIsUnderAnyKey(w.db, k.value); }
  }

  lemma SetMasterKeepsSound(w: World, oldPassword: Option<string>, newPassword: string, salt: seq<byte>,
                            f: Faults, minted: Key, kdf: Kdf)
    requires Sound(w)
    ensures var (w', ok) := SetMasterPassword(w, oldPassword, newPassword, salt, f, minted, kdf);
            && Sound(w')
            && (forall c :: PlainAt(w'.db, c) == PlainAt(w.db, c))
            && (ok ==> Unlock(w', newPassword, kdf) == (w', true))
            && (!ok ==> w'.db == w.db)
            && (w.usingKeychain && w.key.Some? ==> ok)
            && (!w.usingKeychain ==> (ok <==> oldPassword.Some? && Unlock(w, oldPassword.value, kdf).1))
  {
    CurrentKeyKeepsSound(w, oldPassword, f, minted, kdf);
    var (w1, k) := CurrentKey(w, oldPassword, f, minted, kdf);
    if k.Some? {
      var newKey := kdf(newPassword, salt);
      RekeyIsAllOrNothing(w1.db, k.value, newKey, Meta(Some(salt), Some(Blob(newKey, VERIFIER)), false));
    }
  }

  lemma RemoveMasterKeepsSound(w: World, password: string, f: Faults, minted: Key, kdf: Kdf)
    requires Sound(w)
    ensures var (w', ok) := RemoveMasterPassword(w, password, f, minted, kdf);
            && (Sound(w') <==> !(Unlock(w, password, kdf).1 && Misled(w.store, false, f, minted)))
            && (forall c :: PlainAt(w'.db, c) == PlainAt(w.db, c))
            && (ok ==> w'.usingKeychain && w'.key.Some? && Reads(w'.db, w'.key.value))
            && (ok ==> (Effective(w'.store) == w'.key <==> !Misled(w.store, false, f, minted)))
            && (!ok ==> w'.db == w.db)
            && (ok <==> Unlock(w, password, kdf).1 && !LoadKey(w.store, false, f, minted).0.FileWriteFailed?)
  {
    var (w1, ok) := Unlock(w, password, kdf);
    if ok {
      var (r, store) := LoadKey(w1.store, false, f, minted);
      if r.Loaded? { RekeyIsAllOrNothing(w1.db, w1.key.value, r.key, Meta(None, None, true)); }
    }
  }

  lemma SaveKeepsSound(w: World, c: Cell, plain: seq<byte>)
    requires Sound(w)
    ensures Sound(Save(w, c, plain))
  {
    var w' := Save(w, c, plain);
    if w' != w && !HasSecrets(w.db) { EmptyIsUnderAnyKey(w.db, w.key.value); }
  }

  lemma FewerSecrets(w: World, db: Db)
    requires Sound(w) && db.meta == w.db.meta
    requires forall id | id in db.sessions :: RowHasSecret(db.sessions[id]) ==>
      id in w.db.sessions && db.sessions[id] == w.db.sessions[id]
    requires forall id | id in db.keys :: id in w.db.keys && db.keys[id] == w.db.keys[id]
    ensures Sound(w.(db := db))
  {
    if HasSecrets(db) {
      if exists id | id in db.sessions :: RowHasSecret(db.sessions[id]) {
        var id :| id in db.sessions && RowHasSecret(db.sessions[id]);
        assert RowHasSecret(w.db.sessions[id]);
      } else {
        var id :| id in db.keys;
        assert id in w.db.keys;
      }
      assert HasSecrets(w.db);
    }
  }

  /** The two operations that resolve the key and keep using it, hit by an unread key file. */
  predicate MisledBy(w: World, op: Op, kdf: Kdf) {
    match op
    case OpRestart(f, minted) => w.usingKeychain && Misled(w.store, HasSecrets(w.db), f, minted)
    case OpRemoveMaster(password, f, minted) => Unlock(w, password, kdf).1 && Misled(w.store, false, f, minted)
    case _ => false
  }

  lemma StepKeepsSound(w: World, op: Op, kdf: Kdf)
    requires Sound(w)
    ensures Sound(Step(w, op, kdf)) <==> !MisledBy(w, op, kdf)
  {
    match op
    case OpRestart(f, minted) => InitKeepsSound(w, f, minted);
    case OpAddSession(_) => FewerSecrets(w, Step(w, op, kdf).db);
    case OpDeleteSession(_) => FewerSecrets(w, Step(w, op, kdf).db);
    case OpDeleteKey(_) => FewerSecrets(w, Step(w, op, kdf).db);
    case OpSave(c, plain) => SaveKeepsSound(w, c, plain);
    case OpLock =>
    case OpUnlock(_) =>
    case OpSetMaster(o, n, salt, f, minted) => SetMasterKeepsSound(w, o, n, salt, f, minted, kdf);
    case OpRemoveMaster(p, f, minted) => RemoveMasterKeepsSound(w, p, f, minted, kdf);
  }

  /** No operation of the run is misled. */
  predicate NeverMisled(w: World, ops: seq<Op>, kdf: Kdf)
    decreases |ops|
  {
    ops == [] || (!MisledBy(w, ops[0], kdf) && NeverMisled(Step(w, ops[0], kdf), ops[1..], kdf))
  }

  /** At no point of the run are the stored secrets under anything but one recoverable key. */
  ghost predicate SoundThroughout(w: World, ops: seq<Op>, kdf: Kdf)
    decreases |ops|
  {
    Sound(w) && (ops == [] || SoundThroughout(Step(w, ops[0], kdf), ops[1..], kdf))
  }

  /** From a sound start, a run is sound throughout exactly when none of its operations is misled. */
  lemma {:induction false} RunKeepsSound(w: World, ops: seq<Op>, kdf: Kdf)
    requires Sound(w)
    ensures SoundThroughout(w, ops, kdf) <==> NeverMisled(w, ops, kdf)
    ensures SoundThroughout(w, ops, kdf) ==> Sound(Run(w, ops, kdf))
    decreases |ops|
  {
    if ops != [] {
      var next := Step(w, ops[0], kdf);
      StepKeepsSound(w, ops[0], kdf);
      if Sound(next) { RunKeepsSound(next, ops[1..], kdf); }
    }
  }

  lemma FreshInstallIsSound(w: World)
    requires FreshInstall(w)
    ensures Sound(w)
  {}

  // ---- locking ----

  /** Operations after which a vault that was open may be closed, or the other way round. */
  predicate TurnsTheKey(op: Op) { op.OpRestart? || op.OpUnlock? || op.OpSetMaster? || op.OpRemoveMaster? }

  /** In keychain mode nothing but a restart or a password takes the key out of memory, locking included. */
  lemma {:induction false} KeychainVaultStaysOpen(w: World, ops: seq<Op>, kdf: Kdf)
    requires Sound(w) && w.usingKeychain && w.key.Some?
    requires forall op | op in ops :: !op.OpRestart? && !op.OpSetMaster?
    ensures var r := Run(w, ops, kdf); r.usingKeychain && r.key == w.key && r.store == w.store
    decreases |ops|
  {
    if ops != [] {
      StepKeepsSound(w, ops[0], kdf);
      assert ops[0] in ops;
      KeychainVaultStaysOpen(Step(w, ops[0], kdf), ops[1..], kdf);
    }
  }

  lemma {:induction false} LockedStaysLocked(w: World, ops: seq<Op>, kdf: Kdf, c: Cell)
    requires !w.usingKeychain && !w.db.meta.usingKeychain && w.key.None?
    requires forall op | op in ops :: op.OpRestart? || !TurnsTheKey(op)
    ensures var r := Run(w, ops, kdf); r.key.None? && (PlainAt(r.db, c).None? || PlainAt(r.db, c) == PlainAt(w.db, c))
    decreases |ops|
  {
    if ops != [] {
      assert ops[0] in ops;
      LockedStaysLocked(Step(w, ops[0], kdf), ops[1..], kdf, c);
    }
  }

  /** A password vault that was locked holds no key and takes in no secret until a password is used. */
  lemma LockedVaultStaysLocked(w: World, ops: seq<Op>, kdf: Kdf, c: Cell)
    requires !w.usingKeychain && !w.db.meta.usingKeychain
    requires forall op | op in ops :: op.OpRestart? || !TurnsTheKey(op)
    ensures var r := Run(w, [OpLock] + ops, kdf);
      r.key.None? && (PlainAt(r.db, c).None? || PlainAt(r.db, c) == PlainAt(w.db, c))
  {
    assert ([OpLock] + ops)[1..] == ops;
    LockedStaysLocked(Lock(w), ops, kdf, c);
  }

  // ---- what the plaintexts do ----

  /** The operations a user would expect to change what is stored in a cell. */
  predicate Touches(op: Op, c: Cell) {
    || (op.OpSave? && op.cell == c)
    || (op.OpDeleteSession? && !c.PrivateKey? && op.id == c.id)
    || (op.OpDeleteKey? && c == PrivateKey(op.id))
  }

  lemma SetMasterKeepsPlain(w: World, op: Op, kdf: Kdf, c: Cell)
    requires op.OpSetMaster?
    ensures PlainAt(Step(w, op, kdf).db, c) == PlainAt(w.db, c)
  {
    var (w1, k) := CurrentKey(w, op.oldPassword, op.f, op.minted, kdf);
    if k.Some? {
      var newKey := kdf(op.newPassword, op.salt);
      RekeyIsAllOrNothing(w1.db, k.value, newKey, Meta(Some(op.salt), Some(Blob(newKey, VERIFIER)), false));
    }
  }

  lemma RemoveMasterKeepsPlain(w: World, op: Op, kdf: Kdf, c: Cell)
    requires op.OpRemoveMaster?
    ensures PlainAt(Step(w, op, kdf).db, c) == PlainAt(w.db, c)
  {
    var (w1, ok) := Unlock(w, op.password, kdf);
    if ok {
      var (r, _) := LoadKey(w1.store, false, op.f, op.minted);
      if r.Loaded? { RekeyIsAllOrNothing(w1.db, w1.key.value, r.key, Meta(None, None, true)); }
    }
  }

  lemma SaveKeepsPlain(w: World, cell: Cell, plain: seq<byte>, c: Cell)
    ensures c != cell ==> PlainAt(Save(w, cell, plain).db, c) == PlainAt(w.db, c)
    ensures plain != [] && w.key.Some? && (cell.PrivateKey? || cell.id in w.db.sessions) ==>
      PlainAt(Save(w, cell, plain).db, cell) == Some(plain)
  {}

  lemma StepKeepsPlain(w: World, op: Op, kdf: Kdf, c: Cell)
    ensures !Touches(op, c) ==> PlainAt(Step(w, op, kdf).db, c) == PlainAt(w.db, c)
    ensures op.OpSave? && op.cell == c && op.plain != [] && w.key.Some? && (c.PrivateKey? || c.id in w.db.sessions) ==>
      PlainAt(Step(w, op, kdf).db, c) == Some(op.plain)
  {
    match op
    case OpSetMaster(_, _, _, _, _) => SetMasterKeepsPlain(w, op, kdf, c);
    case OpRemoveMaster(_, _, _) => RemoveMasterKeepsPlain(w, op, kdf, c);
    case OpSave(cell, plain) => SaveKeepsPlain(w, cell, plain, c);
    case _ =>
  }

  /**
   * A saved text is read back from its cell, also in a session just added, unless the vault is locked or the text is
   * empty, and then nothing changes at all. With a deleted session or key its secrets are gone.
   */
  lemma SavedUntilDeleted(w: World, c: Cell, plain: seq<byte>, kdf: Kdf)
    ensures w.key.Some? && plain != [] ==>
      var ops := if c.PrivateKey? then [OpSave(c, plain)] else [OpAddSession(c.id), OpSave(c, plain)];
      PlainAt(Run(w, ops, kdf).db, c) == Some(plain)
    ensures w.key.None? || plain == [] ==> Run(w, [OpSave(c, plain)], kdf) == w
    ensures PlainAt(Run(w, [if c.PrivateKey? then OpDeleteKey(c.id) else OpDeleteSession(c.id)], kdf).db, c) == None
  {
    var add, save := OpAddSession(c.id), OpSave(c, plain);
    assert [add, save][1..] == [save] && [save][1..] == [];
    var added := Step(w, add, kdf);
    assert c.PrivateKey? || c.id in added.db.sessions;
    SaveKeepsPlain(w, c, plain, c);
    SaveKeepsPlain(added, c, plain, c);
    RunOne(w, save, kdf);
    RunOne(added, save, kdf);
    RunOne(w, if c.PrivateKey? then OpDeleteKey(c.id) else OpDeleteSession(c.id), kdf);
  }

  lemma RunOne(w: World, op: Op, kdf: Kdf)
    ensures Run(w, [op], kdf) == Step(w, op, kdf)
  {
    assert [op][1..] == [];
  }

  /** The octets of the verifier are the text the service seals. */
  lemma VerifierSpelled(text: string)
    requires text == "ternix-vault-verifier-v1"
    ensures |VERIFIER| == |text| && forall i :: 0 <= i < |text| ==> VERIFIER[i] as int == text[i] as int
  {}

  /** What is sealed in a cell nobody overwrote or deleted is the same text after any run, misled or not. */
  lemma {:induction false} RunKeepsPlain(w: World, ops: seq<Op>, kdf: Kdf, c: Cell)
    requires forall op | op in ops :: !Touches(op, c)
    ensures PlainAt(Run(w, ops, kdf).db, c) == PlainAt(w.db, c)
    decreases |ops|
  {
    if ops != [] {
      StepKeepsPlain(w, ops[0], kdf, c);
      RunKeepsPlain(Step(w, ops[0], kdf), ops[1..], kdf, c);
    }
  }

  // ---- the promise ----

  /**
   * What a user finds. The key in memory, if any, reads every secret. A keychain-mode restart that does not refuse
   * reads every secret, exactly unless it is misled; one that refuses leaves the disk alone and lacks a key in sight.
   * In password mode the service starts locked, and a password unlocks exactly when it derives the one key that reads
   * every secret.
   */
  ghost predicate EverythingReadable(w: World, kdf: Kdf, f: Faults, minted: Key, password: string) {
    var (restarted, ok) := Init(w, f, minted);
    var (unlocked, unlocks) := Unlock(w, password, kdf);
    && (w.key.Some? ==> Reads(w.db, w.key.value))
    && restarted.db == w.db
    && (w.usingKeychain && ok ==> restarted.key.Some?)
    && (w.usingKeychain && ok && HasSecrets(w.db) ==>
          (Reads(w.db, restarted.key.value) <==> !Misled(w.store, true, f, minted)))
    && (w.usingKeychain && !ok && HasSecrets(w.db) ==>
          restarted.store == w.store && FileSeen(w.store, f).None? && (f.fileReadThrows || !Reachable(f)))
    && (w.usingKeychain ==> !unlocks)
    && (!w.usingKeychain ==>
          && ok && restarted.key.None?
          && w.db.meta.salt.Some? && w.db.meta.verifier.Some?
          && var k := w.db.meta.verifier.value.sealedBy;
          && (unlocks <==> kdf(password, w.db.meta.salt.value) == k)
          && (unlocks ==> unlocked.key == Some(k))
          && Reads(w.db, k))
  }

  lemma SoundIsReadable(w: World, kdf: Kdf, f: Faults, minted: Key, password: string)
    requires Sound(w)
    ensures EverythingReadable(w, kdf, f, minted, password)
  {
    var (restarted, ok) := Init(w, f, minted);
    if w.key.Some? {
      if !HasSecrets(w.db) { EmptyIsUnderAnyKey(w.db, w.key.value); }
      AllUnderReads(w.db, w.key.value);
    }
    if w.usingKeychain && ok && HasSecrets(w.db) {
      ReadsIsAllUnder(w.db, restarted.key.value);
      OneKeyReads(w.db, Effective(w.store).value, restarted.key.value);
    }
    if !w.usingKeychain { AllUnderReads(w.db, w.db.meta.verifier.value.sealedBy); }
  }

  /** Of a vault with secrets all under one key, no other key reads everything. */
  lemma OneKeyReads(db: Db, k: Key, other: Key)
    requires HasSecrets(db) && AllUnder(db, k)
    ensures AllUnder(db, other) <==> other == k
  {
    if exists id | id in db.sessions :: RowHasSecret(db.sessions[id]) {
      var id :| id in db.sessions && RowHasSecret(db.sessions[id]);
      assert RowUnder(db.sessions[id], k);
      assert AllUnder(db, other) ==> RowUnder(db.sessions[id], other);
    } else {
      var id :| id in db.keys;
      assert db.keys[id].sealedBy == k;
    }
  }

  /** After any run from a sound vault in which no operation was misled. */
  lemma NoSecretBecomesUnreadable(start: World, ops: seq<Op>, kdf: Kdf, f: Faults, minted: Key, password: string)
    requires Sound(start) && NeverMisled(start, ops, kdf)
    ensures EverythingReadable(Run(start, ops, kdf), kdf, f, minted, password)
  {
    RunKeepsSound(start, ops, kdf);
    SoundIsReadable(Run(start, ops, kdf), kdf, f, minted, password);
  }

  /** In particular from a fresh install, whatever the keychain and the key file hold then. */
  lemma NoSecretOfAFreshInstallIsLost(start: World, ops: seq<Op>, kdf: Kdf, f: Faults, minted: Key, password: string)
    requires FreshInstall(start) && NeverMisled(start, ops, kdf)
    ensures EverythingReadable(Run(start, ops, kdf), kdf, f, minted, password)
  {
    FreshInstallIsSound(start);
    NoSecretBecomesUnreadable(start, ops, kdf, f, minted, password);
  }

  // ---- an unread key file ----

  const HEALTHY := Faults(true, false, false, false, None, false, Written, false)

  /** A vault kept under the key in the file, beside an older entry in the keychain. */
  function StaleKeychain(current: Key, stale: Key, secret: seq<byte>): World {
    World(Db(map[], map[1 := Blob(current, secret)], Meta(None, None, true)),
          KeyStore(Some(stale), Some(current)), true, None)
  }

  /**
   * One start at which the key file cannot be read: the stale key is handed out, a secret is saved under it, and the
   * next start, back on the file, cannot read it.
   */
  lemma AnUnreadKeyFileLosesASecret(current: Key, stale: Key, secret: seq<byte>, plain: seq<byte>, kdf: Kdf,
    minted: Key)
    requires current != stale && plain != []
    ensures
      var start := StaleKeychain(current, stale, secret);
      var w := Run(start, [OpRestart(HEALTHY.(fileReadThrows := true), minted)]
        + ([OpSave(PrivateKey(2), plain)] + [OpRestart(HEALTHY.(readThrows := true), minted)]), kdf);
      && Sound(start) && w.key == Some(current)
      && BlobAt(w.db, PrivateKey(2)) == Some(Blob(stale, plain))
        && Open(current, BlobAt(w.db, PrivateKey(2)).value).None?
  {
    var start := StaleKeychain(current, stale, secret);
    var unread, reread := HEALTHY.(fileReadThrows := true), HEALTHY.(readThrows := true);
    assert 1 in start.db.keys;
    assert AsKey(start.store.file) == Some(current) && AsKey(start.store.keychain) == Some(stale);
    var w1 := Step(start, OpRestart(unread, minted), kdf);
    assert w1 == start.(key := Some(stale));
    var w2 := Step(w1, OpSave(PrivateKey(2), plain), kdf);
    assert 1 in w2.db.keys;
    var w3 := Step(w2, OpRestart(reread, minted), kdf);
    assert w3 == w2.(key := Some(current));
    RunFirst(start, OpRestart(unread, minted), [OpSave(PrivateKey(2), plain)] + [OpRestart(reread, minted)], kdf);
    RunFirst(w1, OpSave(PrivateKey(2), plain), [OpRestart(reread, minted)], kdf);
    RunFirst(w2, OpRestart(reread, minted), [], kdf);
    assert [OpRestart(reread, minted)] + [] == [OpRestart(reread, minted)];
  }

  lemma RunFirst(w: World, op: Op, rest: seq<Op>, kdf: Kdf)
    ensures Run(w, [op] + rest, kdf) == Run(Step(w, op, kdf), rest, kdf)
  {
    assert ([op] + rest)[1..] == rest;
  }

  predicate ChangesPassword(op: Op) { op.OpSetMaster? || op.OpRemoveMaster? }

  /** A master password keeps opening the vault until it is changed or removed. */
  lemma {:induction false} PasswordStaysGood(w: World, ops: seq<Op>, kdf: Kdf, password: string)
    requires Sound(w) && Unlock(w, password, kdf).1
    requires forall op | op in ops :: !ChangesPassword(op)
    ensures Unlock(Run(w, ops, kdf), password, kdf).1
    decreases |ops|
  {
    if ops != [] {
      var w1 := Step(w, ops[0], kdf);
      assert !ChangesPassword(ops[0]);
      assert w1.db.meta == w.db.meta;
      StepKeepsSound(w, ops[0], kdf);
      PasswordStaysGood(w1, ops[1..], kdf, password);
    }
  }
}
