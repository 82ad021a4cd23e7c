/**
 * Which key a keychain-mode vault is opened with
 * (electron/services/vaultKeyPlan.ts): one decision over four facts.
 */
module VaultKeyPlan {
  datatype KeyUse = UseKeychain | UseFile | Generate | Refuse

  datatype KeySource = FromKeychain | Migrated | Created | FromKeyFile | Unreachable

  datatype Plan = Plan(use: KeyUse, writeKeychain: bool, writeFile: bool, removeFile: bool, source: KeySource)

  const REFUSE := Plan(Refuse, false, false, false, Unreachable)

  /**
   * The two rules of the design, and their converses: the file is given up just for a key that is about to be written
   * to a reachable keychain, and a key is minted just over an empty vault with none in sight. The key file wins over
   * the keychain, and what is written goes to the keychain whenever that can be reached.
   */
  function PlanVaultKey(keychainAvailable: bool, keychainHasKey: bool, fileHasKey: bool,
    vaultHasSecrets: bool): (plan: Plan)
    ensures plan.removeFile <==> plan.writeKeychain && plan.use == UseFile
    ensures plan.writeKeychain <==> keychainAvailable && (plan.use == UseFile || plan.use == Generate)
    ensures plan.writeFile <==> !keychainAvailable && plan.use == Generate
    ensures plan.use == UseFile <==> fileHasKey
    ensures plan.use == UseKeychain <==> !fileHasKey && keychainAvailable && keychainHasKey
    ensures plan.use == Generate <==> !fileHasKey && !(keychainAvailable && keychainHasKey) && !vaultHasSecrets
    ensures plan.use == Refuse <==> vaultHasSecrets && !fileHasKey && !(keychainAvailable && keychainHasKey)
    ensures plan.source == Unreachable <==> plan.use == Refuse
    ensures plan.source == FromKeychain <==> plan.use == UseKeychain
    ensures plan.source == Migrated <==> plan.removeFile
    ensures plan.source == Created <==> plan.use == Generate && plan.writeKeychain
    ensures plan.source == FromKeyFile ==> !keychainAvailable
  {
    if fileHasKey then
      if keychainAvailable then Plan(UseFile, true, false, true, Migrated)
      else Plan(UseFile, false, false, false, FromKeyFile)
    else if keychainAvailable then
      if keychainHasKey then Plan(UseKeychain, false, false, false, FromKeychain)
      else if vaultHasSecrets then REFUSE
      else Plan(Generate, true, false, false, Created)
    else if vaultHasSecrets then REFUSE
    else Plan(Generate, false, true, false, FromKeyFile)
  }
}
