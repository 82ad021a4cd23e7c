# Ternix, verified

A Dafny model of the parts of Ternix that hold state machines and parsers, with proofs of what their
comments promise. `dafny verify dfyconfig.toml` checks everything.

| files | what they model |
|---|---|
| `VaultKeyPlan`, `VaultModel`, `VaultRuns`, `CryptoService` | the vault key: keychain, key file, master password. A blob remembers the key that sealed it and opens under no other. `VaultModel` has one transition for each operation, with an adversary choosing every keychain and file fault; `CryptoService` is the same service on mutable key buffers, an updatable database and two cells. |
| `PaneGrid`, `TabModel`, `TabRuns`, `TabPanes`, `Workspace`, `TabStore` | tabs, the two split groups and the pane grid. `TabModel` has one transition for each store action, `TabStore` the store that performs them, the others what every run keeps. |
| `SplitLayout` | pane rectangles and divider drags, over reals. |
| `Vencrypt`, `VncBridge` | the RFB handshake proxy, sections 7.1.1 and 7.1.2 of RFC 6143. `PhaseOf` reads one peer's half of the conversation from the bytes it received and sent, independently of the bridge. |
| `JsText`, `Csv`, `CsvRoundTrip`, `SshConfig`, `SshConfigRoundTrip`, `ImportCommit` | CSV and ssh_config import and export, group paths and the idempotent commit. |
| `Telnet` | the IAC filter, the command stream of RFC 854. |
| `TransferGate`, `TransferFiles`, `Transfer`, `RemoteTree`, `UploadTree` | SFTP: the counting gate and the files that pass it, one transfer's settlement, batches, recursive delete and the walk of an upload. |
| `MobileGate` | the verdict on a chain of jump hosts. |

Where the code does less than its comments say, the code is kept and the exact condition is proved:

- `reorderTab` does not repair the shown tab of the group a tab leaves. `TabRuns.StrandsShown` is the
  condition a caller can check before the drop; `Workspace.ReorderStrandsAShownTab` is a legal run that hits it.
- The VNC bridge does not look at the viewer's VeNCrypt version echo, nor at its subtype when Plain is stood in
  for. `VncBridge.Handshake` says exactly which viewer bytes keep both peers in the same phase
  (`VncBridge.ViewerInStep`); `VncBridge.UncheckedEchoPartsThePeers` gives inputs on which they part.
- A key file that cannot be read counts as missing. Beside a stale keychain entry the service then works under the
  wrong key, and what is saved under it is lost (`VaultRuns.AnUnreadKeyFileLosesASecret`). `VaultModel.Misled` is the
  exact condition, and the vault's promise is proved for all runs that never meet it.
- The transfer gate can exceed its cap when an arrival slips in between a release and the wakeup it caused
  (`TransferGate.CapCanBeExceeded`); `TransferGate.CapHoldsIffNeverCrowded` gives the exact condition.
- The Telnet filter drops IAC IAC, and takes a subnegotiation to be over at its first byte 240, even one that is a
  parameter, so that the rest of it reaches the terminal (`Telnet.SubnegotiationIsCutShort`). It delivers the data of
  a stream exactly when no IAC is doubled in it and nothing but 255s comes behind a 240 among parameters
  (`Telnet.DeliversRfcDataIffIntact`). It keeps no state across chunks: `Telnet.SplitIffComplete` says exactly which
  chunk boundaries that hurts.
- A commit reads the known sessions once, so it creates two sessions alike exactly when two drafts of the list are
  alike and new (`ImportCommit.TwinsAreCreatedIffDrafted`); across commits it is idempotent.
- A CSV export brings a session back exactly under the condition `CsvRoundTrip.Survives`: fields trimmed and, but
  for the notes, on one line, a known protocol, tags free of separators. No CSV text whatever would bring back
  another one. Line breaks in notes come back as spaces, and a session without a port comes back with port 22.
- A transfer whose stream closes before everything is through counts as done and reports its full size
  (`Transfer.ClosedShortCountsAsDone`); `Transfer.ReportIsTrueUnlessDoneShort` says exactly when the report is true.

What the world decides is a parameter: which keychain and file accesses fail and what they leave behind, random
keys and salts, fresh ids, the bytes that will ever arrive on a socket and how it closes, whether TLS comes up, the
order of stream events, the key ids a path resolves to.

## Model

| member | source | states |
|---|---|---|
| `VaultKeyPlan.PlanVaultKey` | electron/services/vaultKeyPlan.ts:46-82 | the key file wins over the keychain, a key is minted just over an empty vault with none in sight, refusing is exactly "secrets, and no key in sight"; what is written goes to the keychain whenever that can be reached; the file is given up exactly for a key about to be written there |
| `VaultModel.LoadKey` | electron/services/CryptoService.ts:274-354 | whatever keychain and file accesses fail, reading the key file included: a key handed out is the key of record afterwards (file if present, else keychain) exactly unless a key file went unread beside a different keychain key; apart from that it was the key of record before unless the vault is empty; refusing changes nothing; a file that was read goes exactly when the keychain took its key and gave it back and unlinking works; a key found in the keychain leaves both as they were; a minted one lies in the keychain alone if that took it, else in the file |
| `VaultModel.RekeyIsAllOrNothing` | electron/services/CryptoService.ts:152-158 | the transaction goes through exactly when the old key reads every secret; then every secret keeps its plaintext under the new key, else the database is untouched; an empty column stays empty |
| `VaultModel.ResealMovesEverySecret` | electron/services/CryptoService.ts:238-266 | re-encryption puts every secret column and key row under the new key with the same plaintext |
| `VaultModel.ReadsIsAllUnder` | electron/services/CryptoService.ts:238-266 | a key reads back every stored secret if and only if every blob was sealed by it |
| `VaultRuns.SetMasterKeepsSound` | electron/services/CryptoService.ts:144-164 | setting succeeds with a live keychain key, changing exactly with the old password; then the new one unlocks the vault; no plaintext changes; failing leaves the database as it was |
| `VaultRuns.RemoveMasterKeepsSound` | electron/services/CryptoService.ts:167-183 | succeeds exactly with the password, unless the key cannot be written anywhere; then the live key reads everything, and is the persisted key of record exactly unless a key file went unread; no plaintext changes; failing leaves the database as it was |
| `VaultRuns.InitKeepsSound` | electron/services/CryptoService.ts:59-72 | a restart keeps all secrets under one recoverable key, whatever fails, exactly unless a key file went unread beside a different keychain key |
| `VaultRuns.SaveKeepsSound` | electron/services/CryptoService.ts:188-191 | a secret is stored under the one key of the vault |
| `VaultRuns.StepKeepsSound` | electron/services/CryptoService.ts:59-313 | every operation, with any faults, keeps all stored blobs under one key, the key of record or the key of the password verifier, exactly unless it is misled by an unread key file |
| `VaultRuns.RunKeepsSound` | electron/services/CryptoService.ts:59-313 | over every run of restart, add, delete, save, lock, unlock, set and remove password: the vault is sound at every point of it if and only if no operation was misled |
| `VaultRuns.RunKeepsPlain` | electron/services/CryptoService.ts:238-266 | what is sealed in a cell nobody overwrote or deleted is the same text after any run, misled or not |
| `VaultRuns.NoSecretBecomesUnreadable` | electron/services/CryptoService.ts:59-313 | after any run in which no operation was misled: the key in memory reads every secret; a restart that does not refuse reads every secret exactly unless it is misled, and one that refuses left the disk alone for want of a key in sight; a password unlocks exactly when it derives the one key that reads every secret |
| `VaultRuns.NoSecretOfAFreshInstallIsLost` | electron/services/CryptoService.ts:59-313 | the same from a fresh install, whatever the keychain and the key file hold then |
| `VaultRuns.AnUnreadKeyFileLosesASecret` | electron/services/CryptoService.ts:368-378 | a start at which the key file cannot be read, beside a stale keychain entry: a secret saved then is unreadable after the next start |
| `VaultRuns.PasswordStaysGood` | electron/services/CryptoService.ts:117-136 | a password that opens the vault keeps opening it until it is changed or removed |
| `VaultRuns.KeychainVaultStaysOpen` | electron/services/CryptoService.ts:104-115 | in keychain mode the key stays in memory over any run without a restart or a new password, locking included |
| `VaultRuns.LockedVaultStaysLocked` | electron/services/CryptoService.ts:104-115 | a locked password vault holds no key and takes in no secret until a password is used |
| `VaultRuns.SavedUntilDeleted` | electron/services/CryptoService.ts:188-197 | a saved text is read back, a locked vault or an empty text changes nothing, and deleting takes the secrets along |
| `VaultRuns.VerifierSpelled` | electron/services/CryptoService.ts:17 | the octets the verifier seals are the text of the service |
| `CryptoServiceImpl.Recrypt` | electron/services/CryptoService.ts:240-246 | one column value: sealed again under the new key, and its plaintext buffer zeroed; null stays null; a wrong key is an error |
| `CryptoServiceImpl.CryptoService.ReadKeychain` | electron/services/CryptoService.ts:316-327 | a throwing store is told apart from an empty one; an entry of the wrong length is no key |
| `CryptoServiceImpl.CryptoService.ReadKeyFile` | electron/services/CryptoService.ts:368-378 | a file that is missing, unreadable or of the wrong length is no key |
| `CryptoServiceImpl.CryptoService.WriteAndVerifyKeychain` | electron/services/CryptoService.ts:346-354 | true exactly when nothing threw and the entry read back is the key |
| `CryptoServiceImpl.CryptoService.LoadOrCreateKeychainKey` | electron/services/CryptoService.ts:274-313 | on buffers and cells: performs LoadKey, returning a fresh buffer holding the key |
| `CryptoServiceImpl.CryptoService.Init` | electron/services/CryptoService.ts:59-72 | on the running object: performs the restart transition |
| `CryptoServiceImpl.CryptoService.Lock` | electron/services/CryptoService.ts:104-115 | in password mode the live key buffer is zeroed and dropped; in keychain mode nothing happens |
| `CryptoServiceImpl.CryptoService.Unlock` | electron/services/CryptoService.ts:117-136 | the candidate becomes the live key exactly when it opens the verifier; a failed attempt leaves the live key alone and zeroes the candidate |
| `CryptoServiceImpl.CryptoService.CurrentKeyForReencrypt` | electron/services/CryptoService.ts:206-213 | the key the stored secrets are under, as a buffer that is either the live one or fresh |
| `CryptoServiceImpl.CryptoService.ReencryptAll` | electron/services/CryptoService.ts:238-266 | the row loops succeed exactly when the old key sealed everything, and then leave the resealed database |
| `CryptoServiceImpl.CryptoService.RekeyTransaction` | electron/services/CryptoService.ts:152-158 | a failure inside puts every row back |
| `CryptoServiceImpl.CryptoService.SwitchKey` | electron/services/CryptoService.ts:160-163 | zeroes the old key and the previously live one, never the buffer that goes live |
| `CryptoServiceImpl.CryptoService.SetMasterPassword` | electron/services/CryptoService.ts:144-164 | performs the transition on buffers: `fill(0)` never touches the buffer left in `key`, and the keychain-mode key is zeroed |
| `CryptoServiceImpl.CryptoService.RemoveMasterPassword` | electron/services/CryptoService.ts:167-183 | performs the transition on buffers: the password key, put into use by checking the password, is zeroed, and the buffer left in `key` is another one |
| `CryptoServiceImpl.CryptoService.Encrypt` | electron/services/CryptoService.ts:188-191 | nothing is stored for empty text; a locked vault throws; else the blob is under the live key |
| `CryptoServiceImpl.CryptoService.Decrypt` | electron/services/CryptoService.ts:194-197 | reads back the plaintext; fails exactly on a locked vault or another key |
| `CryptoServiceImpl.CryptoService.SaveSecret` | electron/services/CryptoService.ts:188-191 | performs the saving transition on the database |
| `Telnet.TelnetSession.HandleIac` | electron/services/TelnetService.ts:37-73 | the byte loop outputs and sends what the filter function says, for every chunk |
| `Telnet.FilterItems` | electron/services/TelnetService.ts:37-73 | for any rendered stream of data other than 255, two- and three-byte commands and subnegotiations with any parameters, followed by any bytes: exactly the bytes and the ordered replies that its items mean, then the result on the rest |
| `Telnet.FilterItem` | electron/services/TelnetService.ts:41-70 | each rendered item ends where it ends: data is delivered, a negotiation or terminal-type request answered, a doubled IAC dropped, and of a subnegotiation what comes after its first 240 is delivered but for its 255s |
| `Telnet.DeliversRfcDataIffIntact` | electron/services/TelnetService.ts:56-66 | the filter delivers the data RFC 854 puts into a rendered stream if and only if no IAC is doubled in it and no subnegotiation has anything but 255s behind a 240 |
| `Telnet.DoubledIacIsLost` | electron/services/TelnetService.ts:64-66 | IAC IAC, which RFC 854 reads as the data byte 255, delivers nothing |
| `Telnet.SubnegotiationIsCutShort` | electron/services/TelnetService.ts:58-63 | the parameters 31, 240, 65 deliver the byte 65 to the terminal, where RFC 854 has no data |
| `Telnet.SplitIffComplete` | electron/services/TelnetService.ts:75-76 | a chunk boundary is harmless, whatever follows, if and only if no command straddles it: no state is kept across chunks |
| `Telnet.OutputIsASubsequence` | electron/services/TelnetService.ts:37-73 | on arbitrary bytes the output is a subsequence of the input and never contains 255 |
| `Telnet.RepliesFollowTheRfc` | electron/services/TelnetService.ts:44-55 | every negotiation is answered in the terms of RFC 854: consent or refusal, permission or ban, giving in to a withdrawal; agreeing to NAWS adds the window size |
| `Telnet.TelnetSession.OnNegotiation` | electron/services/TelnetService.ts:44-55 | the DO, WILL, DONT and WONT replies in order |
| `Telnet.TelnetSession.OnSubnegotiation` | electron/services/TelnetService.ts:56-63 | only a terminal-type request is answered |
| `Telnet.TelnetSession.Resize` | electron/services/TelnetService.ts:32-35 | a resize reports the new size, high byte first |
| `Telnet.NawsReadsBack` | electron/services/TelnetService.ts:32-35 | a window-size report is nine bytes that read back as the columns and then the rows |
| `Telnet.WindowSizeIsReported` | electron/services/TelnetService.ts:44-47 | 255 253 31 is agreed to and answered with the report |
| `Telnet.TerminalTypeIsNamed` | electron/services/TelnetService.ts:56-63 | 255 250 24 1 255 240 is answered with the letters of xterm-256color |
| `Telnet.CutNegotiationIsForZero` | electron/services/TelnetService.ts:41-55 | a negotiation cut off before its option is refused for option 0 |
| `Telnet.CommandCodes` | electron/services/TelnetService.ts:7-13 | the command codes are those of RFC 854 |
| `Csv.SplitCsv` | electron/services/ImportExportService.ts:462-480 | the character loop yields the fields of the quoting automaton |
| `Csv.RowRoundTrip` | electron/services/ImportExportService.ts:462-480 | splitting a printed row gives back its fields, whatever they contain |
| `Csv.QuotedPartIsRead` | electron/services/ImportExportService.ts:462-480 | quotes may open and close in the middle of a field |
| `Csv.OpenQuotesTakeTheRest` | electron/services/ImportExportService.ts:462-480 | quotes that never close take in the rest of the line |
| `Csv.QuotedIffNeeded` | electron/services/ImportExportService.ts:528-531 | a field is quoted exactly if it has a comma, a quote or a line feed |
| `Csv.DefaultsOfCells` | electron/services/ImportExportService.ts:293-307 | a row is a session exactly if it has a name or a host; the host stands in for a missing name, ssh for a missing or unknown protocol, 22 for a missing port |
| `Csv.NoSuchColumn` | electron/services/ImportExportService.ts:291-295 | a column no header names has no cell |
| `Csv.KnownProtocols` | electron/services/ImportExportService.ts:301 | the six protocols an import knows |
| `Csv.BlankLineChangesNothing` | electron/services/ImportExportService.ts:288 | a blank line changes nothing, not even in front of the headers |
| `Csv.FromCsv` | electron/services/ImportExportService.ts:287-310 | the import loop yields the records of the text, with the defaults for missing columns |
| `Csv.ToCsv` | electron/services/ImportExportService.ts:515-531 | the export loop prints the header and one row for each session |
| `CsvRoundTrip.RecordRoundTrip` | electron/services/ImportExportService.ts:293-307 | the printed row of a session with trimmed fields, a known protocol and separator-free tags is read back field by field, whatever else its fields hold |
| `CsvRoundTrip.TagsRoundTrip` | electron/services/ImportExportService.ts:305 | tags without `;` and the bar survive joining, trimming and splitting |
| `CsvRoundTrip.HeaderIsPrinted` | electron/services/ImportExportService.ts:516 | the line of headers, spelled out |
| `CsvRoundTrip.LinesRoundTrip` | electron/services/ImportExportService.ts:288 | a printed text is cut back into exactly its lines, carriage returns inside fields included |
| `CsvRoundTrip.CsvRoundTrips` | electron/services/ImportExportService.ts:515-531 | import after export restores all sessions, in order, and nothing else, if and only if each of them survives; for others no text at all imports as these sessions |
| `CsvRoundTrip.ImportsAreReadable` | electron/services/ImportExportService.ts:287-310 | whatever the text: an imported session has a name, a known protocol, trimmed one-line fields and separator-free tags |
| `JsText.ParseIntOfDecimal` | electron/services/ImportExportService.ts:303 | a printed number is read back |
| `JsText.SpacesOfEcma` | electron/services/ImportExportService.ts:288 | what trimming takes away are the blanks and line terminators of ECMA-262 |
| `JsText.LettersLower` | electron/services/ImportExportService.ts:290 | each of the 26 letters is lowered to its own |
| `JsText.ParseIntReadsTheFront` | electron/services/ImportExportService.ts:303 | blanks, a sign and digits are read as the number whatever follows; without a digit there is none |
| `JsText.SplitOfJoinedLines` | electron/services/ImportExportService.ts:188 | lines without line breaks survive joining and splitting |
| `JsText.SplitOfCrLfLines` | electron/services/ImportExportService.ts:188 | so do lines joined by carriage return and line feed |
| `SshConfig.FromSshConfig` | electron/services/ImportExportService.ts:185-225 | the main-process loop yields the specified drafts |
| `SshConfig.ParseSshConfig` | src/utils/parseSshConfig.ts:8-29 | the renderer loop yields the specified preview |
| `SshConfig.PreviewMatchesImport` | src/utils/parseSshConfig.ts:8-29 | on every input text both parsers agree on name, host, port, username and auth type of every entry, in order |
| `SshConfigRoundTrip.ToSshConfig` | electron/services/ImportExportService.ts:533-545 | the export loop prints a block for each ssh session |
| `SshConfigRoundTrip.BlockIsRead` | electron/services/ImportExportService.ts:537-542 | a printed block is read back as one entry under the dash-joined name |
| `SshConfigRoundTrip.IdentityLineIsRead` | electron/services/ImportExportService.ts:211-215 | an IdentityFile line makes the session log in with a key and keeps its path |
| `SshConfigRoundTrip.JumpLineIsRead` | electron/services/ImportExportService.ts:216-218 | a ProxyJump line is noted below the notes there are |
| `SshConfigRoundTrip.PatternIsSkipped` | electron/services/ImportExportService.ts:196-201 | a block for a pattern with `*` ends the session before and is none itself |
| `SshConfigRoundTrip.DashPerGap` | electron/services/ImportExportService.ts:537 | each run of white space in a name becomes one dash, everything else stays |
| `SshConfigRoundTrip.CompressionIsPrinted` | electron/services/ImportExportService.ts:541 | compression is asked for exactly where the session has it |
| `SshConfigRoundTrip.SshConfigRoundTrips` | electron/services/ImportExportService.ts:533-545 | importing an export restores host, port and user of every ssh session with single-token fields and no `*` in its name |
| `ImportCommit.FindChild` | electron/db/repo.ts:94-96 | of the children of one name the one listed first, by sort order and then age; none exactly if there is none |
| `ImportCommit.GroupsRepo.ResolveGroupPath` | electron/services/ImportExportService.ts:83-90 | the walk down the path performs the specified transition on the group table, matching in listing order |
| `ImportCommit.ResolvedPath` | electron/services/ImportExportService.ts:83-90 | the names from the root to the returned group are the path's non-empty trimmed components; existing groups keep their place; repeating it, even after further imports, creates nothing and returns the same id |
| `ImportCommit.PathIsItsFolders` | electron/services/ImportExportService.ts:83-90 | folder names joined by slashes or backslashes are the components of the path |
| `ImportCommit.NewGroupsSortFirst` | electron/db/repo.ts:97-102 | groups made on the way have sort order 0 |
| `ImportCommit.Importer.Commit` | electron/services/ImportExportService.ts:44-77 | the import loop performs the specified transition and returns how many sessions it created |
| `ImportCommit.CommitSettles` | electron/services/ImportExportService.ts:55-76 | after a commit every imported session is known and every group path exists; the count is the growth of the session list |
| `ImportCommit.CommitIsIdempotent` | electron/services/ImportExportService.ts:44-77 | committing the same list a second time changes nothing and returns 0, whatever keys its paths resolve to by then |
| `ImportCommit.TwinsAreCreatedIffDrafted` | electron/services/ImportExportService.ts:56-73 | for every store and list: a commit creates two sessions alike if and only if two drafts of the list are alike and not known when it starts |
| `ImportCommit.CreatesTheUnknown` | electron/services/ImportExportService.ts:56-73 | created are exactly the drafts not known at the start, in order |
| `ImportCommit.CreatedLieInTheirGroups` | electron/services/ImportExportService.ts:64-73 | every session created lies in the group its path spells in the final table, or without a path in its draft's |
| `ImportCommit.KeyIsAttachedOrMissed` | electron/services/ImportExportService.ts:58-63 | a key in the vault is attached; for a missing one the last line of the notes names the file; nothing else changes |
| `ImportCommit.FourFieldsDecide` | electron/services/ImportExportService.ts:65-70 | two sessions are the same by name, protocol, host and user alone, null and empty being equal |
| `ImportCommit.DuplicatesInOneBatchAreBothCreated` | electron/services/ImportExportService.ts:56-73 | the smallest case: the same new draft twice gives two sessions |
| `MobileGate.Obstacle` | electron/services/mobileGate.ts:55-74 | for each reason, exactly when a hop is blocked for it |
| `MobileGate.GateFollowsChain` | electron/services/mobileGate.ts:47-85 | from any point of the chain, with the ids already seen, the verdict is the chain's |
| `MobileGate.GateIsTheChainVerdict` | electron/services/mobileGate.ts:47-85 | for any session table, cyclic or not: ok if and only if no hop of the jump chain is blocked, else the first blocked hop's reason |
| `MobileGate.CyclesAddNothing` | electron/services/mobileGate.ts:76 | going round a cycle again meets no new hop |
| `TransferGate.SlotGate.Acquire` | electron/services/SftpService.ts:59-66 | takes a slot or queues, as the state machine says |
| `TransferGate.SlotGate.Release` | electron/services/SftpService.ts:67-70 | gives the slot back and wakes the longest waiting |
| `TransferGate.SlotGate.Resume` | electron/services/SftpService.ts:64-65 | a woken waiter takes its slot when its continuation runs |
| `TransferGate.RunKeepsInv` | electron/services/SftpService.ts:54-70 | over all interleavings: no lost wakeup (a non-empty queue means active plus woken reach the cap), waiters are woken in arrival order, `active` counts the holders |
| `TransferGate.NobodyIsStranded` | electron/services/SftpService.ts:59-70 | once every holder released and every woken waiter ran, `active` is 0 and every waiter has come back, in order |
| `TransferGate.CapHoldsWhenOrderly` | electron/services/SftpService.ts:59-70 | if woken waiters run before any new arrival, `active` never exceeds the cap |
| `TransferGate.CapCanBeExceeded` | electron/services/SftpService.ts:59-70 | a run in which an arrival between release and wakeup takes the slot, and the cap is exceeded |
| `TransferGate.CapHoldsIffNeverCrowded` | electron/services/SftpService.ts:59-70 | for every run: `active` is within the cap at every point, and stays so when the woken waiters run next, if and only if no arrival is let in while slots taken and woken waiters together reach the cap |
| `TransferGate.WokenCanRun` | electron/services/SftpService.ts:64-65 | the woken waiters can always run next, and then all of them are in use |
| `TransferFiles.PossibleIsEnabled` | electron/services/SftpService.ts:202-270 | whatever turn the code of the files can take, the gate is called as it has to be |
| `TransferFiles.EveryAcquireIsReleasedOnce` | electron/services/SftpService.ts:202-270 | however files start, continue, return and throw: each asks for a slot once and gives it back once, when it is over; when all are over the gate is idle |
| `TransferFiles.OverAsItsBodyEnded` | electron/services/SftpService.ts:202-270 | a file is over exactly when its body returned or threw, and as it did |
| `Transfer.ActiveTransfer.OnFinishOrClose` | electron/services/SftpService.ts:360-372 | a finish or close settles as the state machine says |
| `Transfer.ActiveTransfer.OnStreamError` | electron/services/SftpService.ts:373-382 | a stream error settles as the state machine says |
| `Transfer.ActiveTransfer.OnData` | electron/services/SftpService.ts:346-352 | a chunk is counted, and announced when a report is due |
| `Transfer.ActiveTransfer.OnPause` | electron/services/SftpService.ts:298-303 | pausing works as the state machine says |
| `Transfer.ActiveTransfer.OnResume` | electron/services/SftpService.ts:304-309 | so does resuming |
| `Transfer.ActiveTransfer.OnCancel` | electron/services/SftpService.ts:278-284 | so does cancelling |
| `Transfer.SettlesExactlyOnce` | electron/services/SftpService.ts:286-385 | for every order of events a transfer settles at most once, at its first terminal event: as cancelled if and only if cancel came first, with the partial file dropped just then; one final status is announced |
| `Transfer.ReportIsTrueUnlessDoneShort` | electron/services/SftpService.ts:346-371 | for every order of events: the bytes a settled transfer reports are those that went through, if and only if it was not settled as done short of the total |
| `Transfer.ClosedShortCountsAsDone` | electron/services/SftpService.ts:360-372 | a stream that closes with nothing through settles as done and reports the total |
| `Transfer.ButtonsTakeEffect` | electron/services/SftpService.ts:298-308 | a running transfer is paused exactly if pause was the last button, and each press that changes that is announced once |
| `Transfer.SettledIgnoresButtons` | electron/services/SftpService.ts:272-284 | once settled, no button does anything |
| `Transfer.Summarize` | electron/services/transferOutcome.ts:24-32 | completed, cancelled and failures are what they count, and together number the files |
| `Transfer.FailuresAreTheFailed` | electron/services/transferOutcome.ts:24-32 | failures are listed if and only if some file failed, the first failed one first |
| `Transfer.FolderFailsIffAFileTrulyFailed` | electron/services/SftpService.ts:242-245 | a folder fails if and only if some file never started, or its first terminal event was an error not preceded by cancel |
| `RemoteTree.RemoteFs.Delete` | electron/services/SftpService.ts:143-154 | of any finite tree, removes exactly the subtree, unless nothing is there or the server refuses to remove or to list something in it; then nothing outside it was touched |
| `RemoteTree.RemoteFs.DeleteChildren` | electron/services/SftpService.ts:150-152 | each entry in turn, up to the first refusal |
| `RemoteTree.RemoteFs.Rmdir` | electron/services/SftpService.ts:153 | is only ever called on a directory already empty (its precondition, met by every caller) |
| `RemoteTree.ChildrenGoneIsEmpty` | electron/services/SftpService.ts:149-153 | once the subtrees of its entries are gone a directory is empty |
| `RemoteTree.RemovableOfChildren` | electron/services/SftpService.ts:149-153 | a directory can go if and only if it and each entry's subtree can |
| `UploadTree.Planner.Walk` | electron/services/SftpService.ts:232-239 | the recursive walk appends exactly the plan of the folder |
| `UploadTree.PlanIsComplete` | electron/services/SftpService.ts:228-247 | every directory of the tree once, each after its parent; every file once, under the same path below the target; each file goes into a planned directory |
| `UploadTree.DirsAreExact` | electron/services/SftpService.ts:232-239 | a path is planned as a directory if and only if the tree has a directory there |
| `UploadTree.FilesAreExact` | electron/services/SftpService.ts:232-239 | a pair is planned as a file if and only if the tree has a file at that path on both sides |
| `SplitLayout.ComputeRects` | src/components/terminal/SplitLayout.tsx:39-51 | the nested loops give every pane of the layout, and only those, its rectangle |
| `SplitLayout.StoredSizesDecide` | src/components/terminal/SplitLayout.tsx:16-50 | stored sizes of the right length decide width, height and place of a pane; with none such all are equal |
| `SplitLayout.TilesIffDividedAndFilled` | src/components/terminal/SplitLayout.tsx:17-51 | for every layout and all stored sizes, of whatever length and value: the rectangles tile the unit square if and only if the rows one can see divide the height and the panes of each fill the width |
| `SplitLayout.CoversIffFills` | src/components/terminal/SplitLayout.tsx:17-21 | for any shares, negative ones included: the pieces cover a stretch, each point once and nothing else, if and only if a walk over the shares fills it |
| `SplitLayout.RowsDivideIffFill` | src/components/terminal/SplitLayout.tsx:39-51 | where every row with a height shows something, the same walk decides whether the rows divide the height |
| `SplitLayout.PositiveTilesIffWhole` | src/components/terminal/SplitLayout.tsx:17-51 | positive shares tile if and only if every set in use sums to 1 |
| `SplitLayout.PositiveSharesCover` | src/components/terminal/SplitLayout.tsx:17-21 | consecutive positive shares cover the range up to their sum, each point once |
| `SplitLayout.MoveKeepsRoomy` | src/components/terminal/SplitLayout.tsx:69-75 | a drag keeps the sum at 1 and every entry at least MIN_FR, moves only the two neighbours, and follows the mouse up to the clamp at either end |
| `SplitLayout.OnMove` | src/components/terminal/SplitLayout.tsx:69-75 | the mouse-move handler writes just the two entries |
| `SplitLayout.RowDragResizes` | src/components/terminal/SplitLayout.tsx:59-87 | dragging the divider between two rows resizes just them, as far as the mouse goes and no further than 0.15, and no width |
| `SplitLayout.ColumnDragResizes` | src/components/terminal/SplitLayout.tsx:59-87 | dragging the divider between two panes of a row resizes just them, and no height |
| `SplitLayout.LastMoveCounts` | src/components/terminal/SplitLayout.tsx:65-75 | of one drag the last place of the mouse alone counts |
| `SplitLayout.RelayoutKeepsSizes` | src/components/terminal/SplitLayout.tsx:39-41 | another layout keeps the stored sizes, which decide where their length fits |
| `SplitLayout.StepKeepsInv` | src/components/terminal/SplitLayout.tsx:59-87 | grabbing, dragging, dropping and re-layout keep every stored array summing to 1 with entries at least MIN_FR |
| `SplitLayout.DragsNeverBreakTheTiling` | src/components/terminal/SplitLayout.tsx:34-87 | after any run of drags and layout changes the panes still tile the square |
| `PaneGrid.FindPane` | src/store/useTabStore.ts:171-177 | the row loop finds the place of a pane, or none |
| `PaneGrid.InsertAddsOne` | src/store/useTabStore.ts:185-201 | splitting adds the new pane and loses none |
| `PaneGrid.InsertKeepsShape` | src/store/useTabStore.ts:185-201 | at most two rows of at most three, none empty; only rows within the given limit grow |
| `PaneGrid.SplitPlacesNewPane` | src/store/useTabStore.ts:179-201 | a split to the right places the pane next to the active one in its row, a split downwards in a row of its own right below; refused exactly for want of room |
| `PaneGrid.UnknownActiveSplitsBelow` | src/store/useTabStore.ts:185-201 | without the active pane in the grid the new one goes below all others |
| `PaneGrid.CloseUndoesSplit` | src/store/useTabStore.ts:185-206 | removing the pane a split just made gives back the grid |
| `PaneGrid.FlatOfRemove` | src/store/useTabStore.ts:204-206 | removing takes just that pane out and keeps the order of the rest |
| `TabModel.NearestLeft` | src/store/useTabStore.ts:156-159 | the last tab left of the closed one that is still in the group, or none exactly if there is none |
| `TabModel.FirstOn` | src/store/useTabStore.ts:159 | the group's first tab |
| `TabModel.Pick` | src/store/useTabStore.ts:152-160 | the wanted tab if it is still in the group, else its nearest left neighbour, else the group's first, and none exactly for an empty group |
| `TabRuns.LeftOfIsBefore` | src/store/useTabStore.ts:157-158 | left of an open tab are the tabs before it |
| `TabRuns.RemovalKeepsFocus` | src/store/useTabStore.ts:150-168 | after any removal: an open tab in focus, and while split the one its group shows |
| `TabRuns.RemovalRepairsSides` | src/store/useTabStore.ts:150-168 | after any removal each group shows a tab of its own, whatever it showed before |
| `TabRuns.RemovalPassesOn` | src/store/useTabStore.ts:150-168 | each group goes on showing its tab and the focus stays where it was, as long as those tabs are there; otherwise a neighbour takes over, or the other group |
| `TabRuns.NewTabKeepsFocus` | src/store/useTabStore.ts:215-238 | a new tab takes the focus of the group it opens in |
| `TabRuns.AdoptKeepsFocus` | src/store/useTabStore.ts:356-361 | an adopted tab takes the focus on the left |
| `TabRuns.SetActiveKeepsFocus` | src/store/useTabStore.ts:258-263 | activating focuses an open tab, which its group then shows while the other group shows what it did |
| `TabRuns.ReorderKeepsFocus` | src/store/useTabStore.ts:269-287 | reordering keeps focus and shown tabs open and in step; while split the dropped tab is in the group of the one it was dropped on and the others stay where they are |
| `TabRuns.ReorderLands` | src/store/useTabStore.ts:269-287 | a dropped tab lands in focus at the index of the one it was dropped on |
| `TabRuns.ReorderPlaces` | src/store/useTabStore.ts:269-287 | the other tabs keep their order, panes and grids |
| `TabRuns.ReorderKeepsSidesUnlessStranded` | src/store/useTabStore.ts:269-287 | a drop leaves each group showing its own tab if and only if it does not take the shown tab of a surviving group to the other group |
| `TabRuns.MoveKeepsFocus` | src/store/useTabStore.ts:306-338 | a move focuses the tab in the group asked for (left if the split collapses), leaves both groups showing tabs of their own and the other tabs where they are |
| `TabRuns.MovePassesOn` | src/store/useTabStore.ts:323-337 | the group a tab leaves goes on showing what it showed, or a neighbour of the tab |
| `TabRuns.MoveRefusedFor` | src/store/useTabStore.ts:306-320 | a move is refused exactly for an unknown tab, for want of a second tab, or for a grid too big, each with its own reason; refused, it changes nothing |
| `TabRuns.FirstMoveMakesTheSplit` | src/store/useTabStore.ts:312-338 | the first move right succeeds exactly with two tabs open and a grid of at most 2x2, and then makes the split; a refusal changes nothing |
| `TabRuns.UnsplitKeepsFocus` | src/store/useTabStore.ts:340-344 | unsplitting flattens the strip and shows the tab in focus |
| `TabPanes.SplitTabOk` | src/store/useTabStore.ts:365-379 | the active pane is always found, so the missing-pane fallback is unreachable; a tab grows exactly when there is room, the new pane is then active; the grid stays a partition of the panes |
| `TabPanes.SplitPaneWithinLimits` | src/store/useTabStore.ts:363-380 | while split a tab grows to at most four panes and a row to at most two, otherwise six and three; within these limits the tab asked for does grow; all others are untouched |
| `TabPanes.ShrinkTabOk` | src/store/useTabStore.ts:389-397 | closing one of several panes takes just that one; the grid stays a partition and an open pane is active |
| `TabPanes.SplitThenClose` | src/store/useTabStore.ts:363-398 | closing the pane a split made restores the tab's panes and grid |
| `TabPanes.ReorderPermutes` | src/store/useTabStore.ts:269-287 | reordering permutes the tabs without changing any tab's panes or grid |
| `TabPanes.MoveKeepsOrder` | src/store/useTabStore.ts:306-338 | moving to a group keeps the order, panes and grids of all tabs |
| `TabPanes.UnsplitKeepsOrder` | src/store/useTabStore.ts:340-344 | so does unsplitting |
| `Workspace.StepKeepsFocus` | src/store/useTabStore.ts:215-400 | every legal action keeps the focus invariant; groups that show members of their own go on doing so if and only if the action is not a stranding drop |
| `Workspace.StepConserves` | src/store/useTabStore.ts:215-400 | every legal action keeps the grids, and every pane is in the strip, killed or handed over, exactly one of them |
| `Workspace.OnlyDetachSpares` | src/store/useTabStore.ts:240-256 | handing a tab over kills none of its panes, and nothing else hands panes over |
| `Workspace.LastPaneClosesTheTab` | src/store/useTabStore.ts:382-388 | closing a tab's only pane closes the tab |
| `Workspace.CloseFocusesNeighbour` | src/store/useTabStore.ts:150-168 | closing the tab in focus focuses its nearest left neighbour in the group, or the leading one; if the right group goes with it, the tab the left group shows; nothing exactly when no tab is left |
| `Workspace.OthersSurvive` | src/store/useTabStore.ts:240-244 | closing a tab takes that tab alone; the others keep order, panes and grids, and their sides while the strip stays split |
| `Workspace.ClosingOthersLeaves` | src/store/useTabStore.ts:246-249 | closing the other tabs leaves just that one, panes and grid untouched; with an unknown id, none |
| `Workspace.ClosingRightLeaves` | src/store/useTabStore.ts:251-256 | closing the tabs to the right leaves the strip up to that tab; with an unknown id, none |
| `Workspace.NewTabPlace` | src/store/useTabStore.ts:215-238 | a new tab opens after the given tab or at the end, in the group asked for or the one in focus, has the focus, and is what its group shows |
| `Workspace.AdoptedTabPlace` | src/store/useTabStore.ts:356-361 | an adopted tab stands last, in the left group, as it came, and in focus |
| `Workspace.GoToIsByPlace` | src/store/useTabStore.ts:302-305 | an index names the tab that stands there, one out of range none |
| `Workspace.NextAndPrevAreNeighbours` | src/store/useTabStore.ts:289-300 | next goes one to the right and previous one to the left, round the ends |
| `Workspace.AdoptThenDetach` | src/store/useTabStore.ts:348-361 | an adopted tab handed on again leaves the strip as it was, its panes handed over |
| `Workspace.NextThenPrev` | src/store/useTabStore.ts:289-300 | going to the next tab and back returns to the tab in focus, round the ends too |
| `Workspace.NewThenClose` | src/store/useTabStore.ts:215-244 | a new tab closed again leaves the strip as it was |
| `Workspace.EveryWorkspace` | src/store/useTabStore.ts:208-400 | every workspace reachable from an empty window has unique tabs, the focus invariant, well-formed grids and a balanced account of panes |
| `Workspace.EachGroupShowsItsOwn` | src/store/useTabStore.ts:215-361 | over any run without a stranding drop each group shows a tab of its own |
| `Workspace.ReorderStrandsAShownTab` | src/store/useTabStore.ts:283 | a legal run of five actions after which the left group shows a tab that is on the right |
| `Workspace.PanesAreConserved` | src/store/useTabStore.ts:240-398 | at any point of any run the panes ever brought in are those in the strip, killed or handed over, each exactly one; none killed or handed over comes back |
| `TabStoreImpl.TabStore.NewTab` | src/store/useTabStore.ts:215-238 | the store action performs its transition |
| `TabStoreImpl.TabStore.CloseTab` | src/store/useTabStore.ts:240-244 | the store action performs its transition, killing the tab's panes first |
| `TabStoreImpl.TabStore.CloseOtherTabs` | src/store/useTabStore.ts:246-249 | the store action performs its transition |
| `TabStoreImpl.TabStore.CloseTabsToRight` | src/store/useTabStore.ts:251-256 | the store action performs its transition; an unknown id closes everything |
| `TabStoreImpl.TabStore.Remove` | src/store/useTabStore.ts:150-168 | the bookkeeping after a removal, on the fields |
| `TabStoreImpl.TabStore.ReorderTab` | src/store/useTabStore.ts:269-287 | the store action performs its transition |
| `TabStoreImpl.TabStore.MoveTabToGroup` | src/store/useTabStore.ts:306-338 | the store action performs its transition and returns its error |
| `TabStoreImpl.TabStore.DetachTab` | src/store/useTabStore.ts:348-354 | the store action performs its transition, marking the panes before the tab goes |
| `TabStoreImpl.TabStore.SplitPane` | src/store/useTabStore.ts:363-380 | the store action performs its transition |
| `TabStoreImpl.TabStore.ClosePane` | src/store/useTabStore.ts:382-398 | the store action performs its transition |
| `Vencrypt.PickTlsSubtype` | electron/services/vencrypt.ts:37-39 | an offered X.509 subtype that no other offered one outranks; none exactly if none is offered |
| `Vencrypt.BridgedIffOnlyVencryptHelps` | electron/services/vencrypt.ts:17-34 | the bridge is needed exactly for a list with 19 in it and none of 1, 2, 6, 16, 22, 30 and 113 |
| `Vencrypt.InnerAuth` | electron/services/vencrypt.ts:42-46 | which authentication runs inside each X.509 subtype, and inside nothing else |
| `VncBridge.Duplex.ReadExactly` | electron/services/VncBridgeService.ts:44-50 | a full chunk, the rest of an ended stream, or an error |
| `VncBridge.OfferSecurity` | electron/services/VncBridgeService.ts:215-220 | offers the types and succeeds exactly if the viewer picks one of them |
| `VncBridge.OfferVeNCrypt` | electron/services/VncBridgeService.ts:223-232 | the server half toward the viewer, whose version echo is not looked at |
| `VncBridge.TakeVeNCrypt` | electron/services/VncBridgeService.ts:175-186 | succeeds exactly on a version 0.2 offer of at least one subtype, consuming just that |
| `VncBridge.Replay` | electron/services/VncBridgeService.ts:189-195 | the viewer is shown the server's own subtypes byte for byte, the server gets the viewer's choice byte for byte |
| `VncBridge.OfferInner` | electron/services/VncBridgeService.ts:202-210 | the viewer is offered what runs inside the tunnel |
| `VncBridge.StandIn` | electron/services/VncBridgeService.ts:173-212 | its outcome as a function of what both peers will send; each then sent and received exactly its half, and nothing of either stream is lost |
| `VncBridge.AfterTheVersions` | electron/services/VncBridgeService.ts:161-212 | security types, then everything as it is or the stand-in |
| `VncBridge.Handshake` | electron/services/VncBridgeService.ts:147-212 | its outcome as a function of all the bytes both peers will ever send; nothing of either stream is lost; without a rewrite each side received the very bytes the other sent; and when piping starts both peers are in the same phase if and only if the viewer's bytes at positions 13 to 18 are in step with that outcome |
| `VncBridge.PassesThroughIffNotNeeded` | electron/services/VncBridgeService.ts:147-172 | everything is left to the peers exactly when the viewer speaks an old version, the server refuses, or its list has no 19 or one of the viewer's own types in it |
| `VncBridge.StandsInOnlyWhereNeeded` | electron/services/VncBridgeService.ts:168-212 | for all inputs: the bridge stands in only for a list with 19 and none of those types; it replays only offers without X.509 and takes over only in a tunnel that came up |
| `VncBridge.CutStreamsFail` | electron/services/VncBridgeService.ts:147-172 | a stream that breaks before the types are read fails the handshake |
| `VncBridge.TakenOverWhenAllAgree` | electron/services/VncBridgeService.ts:197-211 | with X.509 on offer, the go given and the tunnel up, a viewer that takes what it is offered is taken over |
| `VncBridge.ReplayedWithoutX509` | electron/services/VncBridgeService.ts:189-195 | without X.509 on offer, a viewer that picks VeNCrypt and answers is replayed to |
| `VncBridge.ModernIsSinceThreeSeven` | electron/services/VncBridgeService.ts:156-159 | of version lines with digits, those from 3.7 on are modern |
| `VncBridge.ReplayKeepsPhase` | electron/services/VncBridgeService.ts:189-195 | after a replayed offer the peers agree if and only if the viewer echoed 0.2 or chose a subtype never offered |
| `VncBridge.TakeoverKeepsPhase` | electron/services/VncBridgeService.ts:197-211 | after a takeover the server awaits the authentication inside the tunnel, and so does the viewer: always for None and VNC, for Plain if and only if it sent 0.2 and chose Plain |
| `VncBridge.AnyEchoGetsThrough` | electron/services/VncBridgeService.ts:223-232 | an X509Plain server is taken over whatever six bytes the viewer sends for a version and a subtype |
| `VncBridge.UncheckedEchoPartsThePeers` | electron/services/VncBridgeService.ts:225 | whole inputs of both peers on which the handshake completes though the viewer answered 0.1, and the peers part |
| `VncBridge.EncodeOfDecode` | electron/services/VncBridgeService.ts:227-229 | writing the subtypes read gives back the bytes read |

## Left out

- Cryptography: AES-GCM is "opens under the sealing key only"; PBKDF2 is an arbitrary function of password and salt, so two passwords may collide; base64 and UTF-8 conversions are identities.
- Vault calls that overlap, and the idle-lock timer: calls are one after the other, locking can happen between any two.
- Panes and tabs carry ids only: titles, colours, hosts, shells, broadcast and connection state do not influence the modelled fields.
- TabModel.FirstOn: where the code would throw on an empty group, the model has a precondition; every caller meets it.
- Workspace: ids handed to `newTab`, `adoptTab` and `splitPane` are fresh, adopted tabs well formed, `group: 1` is asked for only while split, and panes are closed or focused in their own tab; other calls are outside the proved runs.
- Fit of every tab into 2x2 while split: not promised by the code, which checks growth and the first move only.
- SplitLayout: fractions are reals, not floating point; at most six rows of six panes, so that equal shares are at least MIN_FR. A layout with no rows (one implicit row of all panes) is given as that row.
- SplitLayout.RowsDivideIffFill: a row that has a height and no pane with a width is seen by nobody; with such rows only the general condition of TilesIffDividedAndFilled is given.
- VncBridge: TLS itself, the certificate prompt and pinning, token registry and teardown; `tlsStarts` is their verdict. A read waits for bytes that the model already knows will come.
- KeyService: resolving a key path to a vault key id is an arbitrary function in the commit.
- ImportCommit.FindChild: SQLite leaves open which of two groups with one parent, name and sort order is listed first; the model takes the older.
- ImportCommit.ResolvedPath: assumes ids in the group table are unique, as the database guarantees, and that in between no other group of the same name is put beside one the path goes through.
- SshConfigRoundTrip.SshConfigRoundTrips: names with `*` are dropped by the importer, and fields of several words are joined by it, so both are excluded; Compression is printed but never read.
- JavaScript lower-casing is modelled for ASCII letters, which is all the compared keywords contain.
- Telnet auto-login and the socket; only the filter and its replies.
- TransferGate: the cap is fixed during a run; the setting can change it.
- Transfer progress rates and estimates, timestamps after a transfer, and what the destroyed streams do next: any order of later events is allowed.
- RemoteTree.RemoteFs.Delete: the tree changes only through this call, the caller knows whether the path is a directory, and the server's refusals stay the same.
- UploadTree: the walk of `downloadDir`, whose names come from the server and are normalised when joined, is not modelled; nor is a directory that changes during the walk.
- PuTTY, WinSCP, MobaXterm and Tabby formats, the JSON export, SOCKS5, cloudflared, system stats, pairing, dialogs and the user interface: easy tables or plumbing.
