/**
 * CryptoService as it runs (electron/services/CryptoService.ts): mutable key buffers, a database
 * updated row by row inside a transaction, a keychain and a key file that can fail. Every method is
 * tied to the transition of VaultModel it performs, so zeroing a buffer that is still in use, or
 * leaving a half-done transaction behind, would break its postcondition.
 */
module CryptoServiceImpl {
  import opened Basics
  import opened VaultKeyPlan
  import opened VaultModel

  type Buffer = array<byte>

  class Database {
    var sessions: map<nat, SessionRow>
    var keys: map<nat, Blob>
    var meta: Meta

    constructor (sessions: map<nat, SessionRow>, keys: map<nat, Blob>, meta: Meta)
      ensures Contents() == Db(sessions, keys, meta)
    {
      this.sessions, this.keys, this.meta := sessions, keys, meta;
    }

    function Contents(): Db
      reads this
    {
      Db(sessions, keys, meta)
    }
  }

  /** The OS credential store and the 0600 key file, as raw contents. */
  class KeyCells {
    var keychain: Option<seq<byte>>
    var file: Option<seq<byte>>

    constructor (keychain: Option<seq<byte>>, file: Option<seq<byte>>)
      ensures Contents() == KeyStore(keychain, file)
    {
      this.keychain, this.file := keychain, file;
    }

    function Contents(): KeyStore
      reads this
    {
      KeyStore(keychain, file)
    }
  }

  method ToBuffer(s: seq<byte>) returns (b: Buffer)
    ensures fresh(b) && b[..] == s
  {
    b := new byte[|s|](i requires 0 <= i < |s| => s[i]);
  }

  /** `Buffer.fill(0)`. */
  method Zero(b: Buffer)
    modifies b
    ensures forall i :: 0 <= i < b.Length ==> b[i] == 0
  {
    forall i | 0 <= i < b.Length { b[i] := 0; }
  }

  method EncryptWith(key: Buffer, data: Buffer) returns (blob: Blob)
    requires key.Length == KEY_LEN
    ensures blob == Blob(key[..], data[..])
  {
    blob := Blob(key[..], data[..]);
  }

  /** AES-GCM authentication fails under any key but the sealing one; null stands for the exception. */
  method DecryptWith(key: Buffer, blob: Blob) returns (plain: array?<byte>)
    requires key.Length == KEY_LEN
    ensures plain == null <==> Open(key[..], blob).None?
    ensures plain != null ==> fresh(plain) && Open(key[..], blob) == Some(plain[..])
  {
    match Open(key[..], blob)
    case Some(p) => plain := ToBuffer(p);
    case None => plain := null;
  }

  /** Re-encrypt one column value: the plaintext buffer is wiped only after it has been sealed again. */
  method Recrypt(oldKey: Buffer, newKey: Buffer, blob: Option<Blob>)
    returns (out: Option<Blob>, ok: bool, ghost wiped: array?<byte>)
    requires oldKey.Length == KEY_LEN && newKey.Length == KEY_LEN
    ensures ok <==> UnderOpt(blob, oldKey[..])
    ensures ok ==> out == ResealOpt(blob, newKey[..])
    ensures ok && blob.Some? ==> wiped != null && fresh(wiped) && wiped.Length == |blob.value.plain|
    ensures ok && blob.Some? ==> forall i :: 0 <= i < wiped.Length ==> wiped[i] == 0
  {
    if blob.None? { return None, true, null; }
    var plain := DecryptWith(oldKey, blob.value);
    if plain == null { return None, false, null; }
    var sealed := EncryptWith(newKey, plain);
    Zero(plain);
    return Some(sealed), true, plain;
  }

  class CryptoService {
    const db: Database
    const cells: KeyCells
    const kdf: Kdf
    var key: array?<byte>
    var usingKeychain: bool

    constructor (db: Database, cells: KeyCells, kdf: Kdf)
      ensures Valid() && this.db == db && this.cells == cells && this.kdf == kdf
      ensures key == null && usingKeychain
    {
      this.db, this.cells, this.kdf := db, cells, kdf;
      key, usingKeychain := null, true;
    }

    ghost predicate Valid()
      reads this
    {
      key != null ==> key.Length == KEY_LEN
    }

    ghost function State(): World
      requires Valid()
      reads this, db, cells, key
    {
      World(db.Contents(), cells.Contents(), usingKeychain, if key == null then None else Some(key[..]))
    }

    // ---- key resolution ----

    /** Not ok if the keychain could not be asked. An entry that is no key by its length is as good as none. */
    method ReadKeychain(throws: bool) returns (ok: bool, found: array?<byte>)
      ensures ok <==> !throws
      ensures found != null ==> fresh(found) && ok && AsKey(cells.keychain) == Some(found[..])
      ensures ok && found == null ==> AsKey(cells.keychain).None?
    {
      if throws { return false, null; }
      if cells.keychain.None? { return true, null; }
      var buf := ToBuffer(cells.keychain.value);
      return true, if buf.Length == KEY_LEN then buf else null;
    }

    /** A file that cannot be read is taken for none. */
    method ReadKeyFile(throws: bool) returns (found: array?<byte>)
      ensures found == null ==> throws || AsKey(cells.file).None?
      ensures found != null ==> fresh(found) && !throws && AsKey(cells.file) == Some(found[..])
    {
      if cells.file.None? || throws { return null; }
      var buf := ToBuffer(cells.file.value);
      return if buf.Length == KEY_LEN then buf else null;
    }

    method WriteKeyFile(k: Buffer, f: Faults) returns (ok: bool)
      requires k.Length == KEY_LEN
      modifies cells`file
      ensures var (r, s) := WriteFile(old(cells.Contents()), k[..], f); ok == r.Loaded? && cells.Contents() == s
    {
      match f.fileWrite
      case Written => cells.file := Some(k[..]); ok := true;
      case Broken(left) => cells.file := left; ok := false;
    }

    /** True exactly for a key the store gives back after taking it; the write's own word is not enough. */
    method WriteAndVerifyKeychain(k: Buffer, f: Faults) returns (stored: bool)
      requires k.Length == KEY_LEN
      modifies cells`keychain
      ensures cells.keychain == f.writeLeaves
      ensures stored <==> !f.writeThrows && !f.readBackThrows && AsKey(f.writeLeaves) == Some(k[..])
    {
      cells.keychain := f.writeLeaves;
      if f.writeThrows { return false; }
      var ok, back := ReadKeychain(f.readBackThrows);
      stored := ok && back != null && back[..] == k[..];
    }

    method LoadOrCreateKeychainKey(vaultHasSecrets: bool, f: Faults, minted: Key)
      returns (outcome: LoadOutcome, k: array?<byte>)
      modifies cells
      ensures (outcome, cells.Contents()) == LoadKey(old(cells.Contents()), vaultHasSecrets, f, minted)
      ensures k != null <==> outcome.Loaded?
      ensures k != null ==> fresh(k) && k[..] == outcome.key
    {
      var ok, keychainKey := false, null;
      if f.keytarLoads { ok, keychainKey := ReadKeychain(f.readThrows); }
      var fileKey := ReadKeyFile(f.fileReadThrows);
      var plan := PlanVaultKey(ok, keychainKey != null, fileKey != null, vaultHasSecrets);
      if plan.use == Refuse { return Refused, null; }

      var key: Buffer;
      if plan.use == UseKeychain {
        key := keychainKey;
      } else if plan.use == UseFile {
        key := fileKey;
      } else {
        key := ToBuffer(minted);
      }
      if plan.writeKeychain {
        var stored := WriteAndVerifyKeychain(key, f);
        if !stored {
          if fileKey == null {
            var written := WriteKeyFile(key, f);
            if !written { return FileWriteFailed, null; }
          }
          return Loaded(key[..]), key;
        }
      }
      if plan.writeFile {
        var written := WriteKeyFile(key, f);
        if !written { return FileWriteFailed, null; }
      }
      if plan.removeFile && !f.unlinkThrows { cells.file := None; }
      return Loaded(key[..]), key;
    }

    // ---- lifecycle ----

    method Init(f: Faults, minted: Key) returns (ok: bool)
      requires Valid()
      modifies this, cells
      ensures Valid() && (State(), ok) == VaultModel.Init(old(State()), f, minted)
      ensures key != null ==> fresh(key)
    {
      usingKeychain := db.meta.usingKeychain;
      key, ok := null, true;
      if usingKeychain {
        var outcome, k := LoadOrCreateKeychainKey(HasSecrets(db.Contents()), f, minted);
        key, ok := k, outcome.Loaded?;
      }
    }

    method Lock()
      requires Valid()
      modifies this, key
      ensures Valid() && State() == VaultModel.Lock(old(State()))
      ensures !usingKeychain ==> key == null
      ensures !usingKeychain && old(key) != null ==> forall i :: 0 <= i < KEY_LEN ==> old(key)[i] == 0
    {
      if usingKeychain { return; }
      if key != null {
        Zero(key);
        key := null;
      }
    }

    /** `tried` is the buffer the password's key was derived into. */
    method Unlock(password: string) returns (ok: bool, ghost tried: array?<byte>)
      requires Valid()
      modifies this
      ensures Valid() && (State(), ok) == VaultModel.Unlock(old(State()), password, kdf)
      ensures ok ==> key != null && fresh(key)
      ensures !ok ==> key == old(key)
      ensures tried != null <==> db.meta.salt.Some? && db.meta.verifier.Some?
      ensures !ok && tried != null ==> fresh(tried) && forall i :: 0 <= i < tried.Length ==> tried[i] == 0
    {
      var meta := db.meta;
      tried := null;
      if meta.salt.None? || meta.verifier.None? { return false, null; }
      var candidate := ToBuffer(kdf(password, meta.salt.value));
      tried := candidate;
      var decrypted := DecryptWith(candidate, meta.verifier.value);
      if decrypted != null && decrypted[..] == VERIFIER {
        key := candidate;
        return true, tried;
      }
      Zero(candidate);
      return false, tried;
    }

    // ---- master password ----

    method CurrentKeyForReencrypt(oldPassword: Option<string>, f: Faults, minted: Key) returns (oldKey: array?<byte>)
      requires Valid()
      modifies this, cells
      ensures Valid() && usingKeychain == old(usingKeychain)
      ensures (State(), if oldKey == null then None else Some(oldKey[..])) ==
              CurrentKey(old(State()), oldPassword, f, minted, kdf)
      ensures oldKey != null ==> oldKey.Length == KEY_LEN && (oldKey == key || fresh(oldKey))
      ensures key == old(key) || (!usingKeychain && key != null && fresh(key))
    {
      if usingKeychain {
        if key != null { return key; }
        var outcome, k := LoadOrCreateKeychainKey(true, f, minted);
        return k;
      }
      if oldPassword.None? { return null; }
      var ok, _ := Unlock(oldPassword.value);
      if !ok { return null; }
      return key;
    }

    /** Row by row; stops at the first blob that does not open, leaving earlier rows rewritten. */
    method ReencryptAll(oldKey: Buffer, newKey: Buffer) returns (ok: bool)
      requires oldKey.Length == KEY_LEN && newKey.Length == KEY_LEN
      modifies db`sessions, db`keys
      ensures ok <==> AllUnder(old(db.Contents()), oldKey[..])
      ensures ok ==> db.Contents() == Reseal(old(db.Contents()), newKey[..])
    {
      var before := db.Contents();
      var todo := before.sessions.Keys;
      while todo != {}
        invariant todo <= before.sessions.Keys == db.sessions.Keys && db.keys == before.keys
        invariant forall id | id in before.sessions && id !in todo ::
                    RowUnder(before.sessions[id], oldKey[..])
                      && db.sessions[id] == ResealRow(before.sessions[id], newKey[..])
      {
        var id :| id in todo;
        var s := before.sessions[id];
        var p, ok1, _ := Recrypt(oldKey, newKey, s.password);
        if !ok1 { return false; }
        var q, ok2, _ := Recrypt(oldKey, newKey, s.passphrase);
        if !ok2 { return false; }
        var r, ok3, _ := Recrypt(oldKey, newKey, s.vncPassword);
        if !ok3 { return false; }
        db.sessions := db.sessions[id := SessionRow(p, q, r)];
        todo := todo - {id};
      }
      assert db.sessions == Reseal(before, newKey[..]).sessions;

      todo := before.keys.Keys;
      while todo != {}
        invariant todo <= before.keys.Keys == db.keys.Keys && db.sessions == Reseal(before, newKey[..]).sessions
        invariant forall id | id in before.keys && id !in todo ::
                    before.keys[id].sealedBy == oldKey[..] && db.keys[id] == Blob(newKey[..], before.keys[id].plain)
      {
        var id :| id in todo;
        var b, ok1, _ := Recrypt(oldKey, newKey, Some(before.keys[id]));
        if !ok1 { return false; }
        db.keys := db.keys[id := b.value];
        todo := todo - {id};
      }
      assert db.keys == Reseal(before, newKey[..]).keys;
      return true;
    }

    /** `db.transaction`: a failure inside puts every row back. */
    method RekeyTransaction(oldKey: Buffer, newKey: Buffer, meta: Meta) returns (ok: bool)
      requires oldKey.Length == KEY_LEN && newKey.Length == KEY_LEN
      modifies db
      ensures (db.Contents(), ok) == Rekey(old(db.Contents()), oldKey[..], newKey[..], meta)
    {
      var sessions, keys := db.sessions, db.keys;
      ok := ReencryptAll(oldKey, newKey);
      if ok {
        db.meta := meta;
      } else {
        db.sessions, db.keys := sessions, keys;
      }
    }

    method SetMasterPassword(oldPassword: Option<string>, newPassword: string, salt: seq<byte>, f: Faults, minted: Key)
      returns (ok: bool)
      requires Valid()
      modifies this, key, db, cells
      ensures Valid()
      ensures (State(), ok) ==
        VaultModel.SetMasterPassword(old(State()), oldPassword, newPassword, salt, f, minted, kdf)
      ensures ok && old(usingKeychain) && old(key) != null ==>
                key != old(key) && forall i :: 0 <= i < KEY_LEN ==> old(key)[i] == 0
    {
      var oldKey := CurrentKeyForReencrypt(oldPassword, f, minted);
      if oldKey == null { return false; }
      var newKey := ToBuffer(kdf(newPassword, salt));
      var plain := ToBuffer(VERIFIER);
      var verifier := EncryptWith(newKey, plain);
      ok := RekeyTransaction(oldKey, newKey, Meta(Some(salt), Some(verifier), false));
      if !ok { return; }

      SwitchKey(oldKey, newKey);
      usingKeychain := false;
    }

    /** Wipes the keys that are done with; never the one that goes live. */
    method SwitchKey(oldKey: Buffer, newKey: Buffer)
      requires Valid() && newKey.Length == KEY_LEN && newKey != oldKey && newKey != key
      modifies this`key, key, oldKey
      ensures key == newKey
      ensures forall i :: 0 <= i < oldKey.Length ==> oldKey[i] == 0
      ensures old(key) != null ==> forall i :: 0 <= i < old(key).Length ==> old(key)[i] == 0
    {
      if oldKey != key { Zero(oldKey); }
      if key != null && key != newKey { Zero(key); }
      key := newKey;
    }

    /** `wiped` is the password's key, which the check of the password made and put into use. */
    method RemoveMasterPassword(password: string, f: Faults, minted: Key) returns (ok: bool, ghost wiped: array?<byte>)
      requires Valid()
      modifies this, db, cells
      ensures Valid()
      ensures (State(), ok) == VaultModel.RemoveMasterPassword(old(State()), password, f, minted, kdf)
      ensures ok ==> wiped != null && fresh(wiped) && wiped.Length == KEY_LEN && key != null && key != wiped
      ensures ok ==> forall i :: 0 <= i < KEY_LEN ==> wiped[i] == 0
    {
      wiped := null;
      ok, wiped := Unlock(password);
      if !ok { return false, null; }
      var oldKey := key;
      wiped := oldKey;
      var outcome, newKey := LoadOrCreateKeychainKey(false, f, minted);
      if newKey == null { return false, null; }
      ok := RekeyTransaction(oldKey, newKey, Meta(None, None, true));
      if !ok { return; }

      Zero(oldKey);
      key := newKey;
      usingKeychain := true;
    }

    // ---- use ----

    method Encrypt(plain: seq<byte>) returns (locked: bool, blob: Option<Blob>)
      requires Valid()
      ensures blob.Some? <==> plain != [] && key != null
      ensures blob.Some? ==> blob == Some(Blob(key[..], plain))
      ensures locked <==> plain != [] && key == null
    {
      if plain == [] { return false, None; }
      if key == null { return true, None; }
      var data := ToBuffer(plain);
      var b := EncryptWith(key, data);
      return false, Some(b);
    }

    /** Reading a stored secret back; `failed` stands for the locked-vault and decryption exceptions. */
    method Decrypt(blob: Option<Blob>) returns (failed: bool, plain: Option<seq<byte>>)
      requires Valid()
      ensures !failed ==> plain == (if blob.None? then None else Some(blob.value.plain))
      ensures failed <==> blob.Some? && (key == null || blob.value.sealedBy != key[..])
    {
      if blob.None? { return false, None; }
      if key == null { return true, None; }
      var p := DecryptWith(key, blob.value);
      if p == null { return true, None; }
      return false, Some(p[..]);
    }

    method SaveSecret(c: Cell, plain: seq<byte>)
      requires Valid()
      modifies db
      ensures Valid() && State() == Save(old(State()), c, plain)
    {
      var locked, blob := Encrypt(plain);
      if blob.None? { return; }
      var next := PutBlob(db.Contents(), c, blob.value);
      db.sessions, db.keys := next.sessions, next.keys;
    }
  }
}
