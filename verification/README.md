# Hazmat: verified models of its host-side state

Hazmat runs coding agents as a separate user and keeps credentials, SSH keys, Git settings, hooks and shared assets on
the host's side. This project models the parts of it that hold state, recursion or rewriting, and proves what they
promise. To check it, run `dafny verify dfyconfig.toml` in this directory.

Imperative code is modelled as methods, with loops where the source has loops and classes where it updates state.
Each is proved against a specification function or relation, and the results are lemmas about those. Protocols that
may stop or fail run against a `Script` (`Faults`): one answer for each file operation to come, working or failing, and
a stop where the script ends. Their contracts say what every script leaves, as a function of it or in a relation
(`Between`, `Conserves`) that the lemmas carry over whole runs, and that a script without faults leads to the end.

- **SSH resolution and broker**: `SSHConfig`, `SSHConfigInlining` and `SSHConfigMeaning` (Include and
  first-value-wins), `ProxyJump`, `ProxyJumpPaths` and `JumpSyntax` (the jump walk), `Frames`, `Broker` and
  `BrokerReach` (two copiers on one framed stream), `ShellQuote` (the command lexer).
- **Harness assets**: `AssetSync` and `AssetStore` (reconciliation with a manifest), `AssetTree`, `AssetPaths` and
  `AssetFreshness` (fingerprint, snapshot and copy walks).
- **Git config**: `GitConfig` (reader, writer, rewrite), `GitConfigLaws`, `GitConfigDocs`, `GitConfigResults`,
  `GitConfigExact`, `GitConfigOwnLines`, `GitConfigHeaderless`, `GitConfigEmptyHeader` (the laws and where they end),
  `SafeDirectory`, `GitConfigMeaning`, `SafeDirectoryMeaning`.
- **Credentials**: `CredentialSync`, `CredentialFreshest`, `CredentialRedo` and `CredentialSyncer` (launch and exit),
  `CredentialLines`, `Migration`, `MigrationRuns`, `Migrator` and `MigrationMeaning` (moving legacy credentials into the
  store).
- **Hook approvals**: `HookBundle`, `HookApproval`, `HookStore`, `HookMeaning`.
- **SSH profiles**: `SSHProfiles`, `SSHProfileRules`, `SSHCommands`, `SSHRouting` for what a session selects, and
  `SSHMeaning`.
- **Health caches and ACL reading**: `Acl`, `AclHealthCache`, `GitHealthCache`, `AclBatch`, `AclBatchReads`,
  `AclMeaning`.

The modules whose names end in `Meaning`, with `CredentialFreshest` and `AssetPaths`, say what the definitions below the
main results amount to on the fields, lines and characters themselves, so that the main results are about the files and
not about the model's own words.

Some promises turned out to hold only under a condition. The model keeps the code as it is and states the condition
exactly: `GitConfigExact.LastWriterWinsIff`, `GitConfigHeaderless.IdempotentIff`, `SSHRouting.RenameBackIff`,
`AclBatchReads.ChunkAgreesIff`, `AclHealthCache.HitAgreesIff`, `AssetSync.ManifestsAgreeIff`, `AssetTree.SameBytesIff`,
`CredentialSync.BeforeLowersIff`, `CredentialSync.AfterLowersIff`, `CredentialRedo.RedoAfterIff`,
`HookApproval.OthersRecordsStayIff`, `MigrationRuns.NoRunLosesIff` and `MigrationRuns.FaultFreeKeepsIff`. In one place
the code and its help text disagree: `hazmat migrate credentials` is called safe to rerun
(`hazmat/credential_migrate.go:93-97`), but a rewrite of the exports file that stops halfway leaves that file empty
(`hazmat/config_agent.go:465-477`), and a file that cannot be read is passed over without a report
(`hazmat/config_agent.go:413-417`). The model follows the code.

## Model

| member | source | states |
|---|---|---|
| Frames.BE32RoundTrip | hazmat/git_ssh.go:1846-1879 | the four-byte big-endian length reads back as the number written |
| Frames.ReadEncodedFrame | hazmat/git_ssh.go:1846-1879 | a written frame within the size limit reads back as itself and leaves exactly what follows it |
| Frames.ReadFrameIsEncoding | hazmat/git_ssh.go:1863-1879 | conversely, the bytes consumed by a successful read are the encoding of the frame read |
| Frames.DecodeEncode | hazmat/git_ssh.go:1846-1879 | any list of frames within the limit decodes to itself and then a clean end of file |
| Frames.EncodeInjective | hazmat/git_ssh.go:1846-1861 | two lists of frames have the same bytes only if they are the same list |
| Frames.DecodeIsEncoding | hazmat/git_ssh.go:1863-1879 | for any bytes at all, the frames read re-encode to a prefix of the input whose rest starts no whole frame |
| Frames.DecodeStrictPrefix | hazmat/git_ssh.go:1863-1879 | a strict prefix of an encoded list decodes to exactly the frames that lie inside it and then an end-of-file error |
| Frames.RequestRoundTrip | hazmat/git_ssh.go:1809-1844 | the request envelope round trips its payload if and only if it is neither empty nor above 16 MiB |
| Frames.FrameBytes | hazmat/git_ssh.go:1846-1861 | byte for byte a frame is its type, the payload's length with the highest byte first, and the payload |
| Frames.OversizedIffRefused | hazmat/git_ssh.go:1863-1879 | a header that announces more than 16 MiB is refused before the payload is read, and no other header is |
| Frames.CutErrorIff | hazmat/git_ssh.go:1863-1879 | a frame cut at its start or where its header ends reads as a clean end of file, cut anywhere else as an unexpected one |
| Frames.Pipe.PutFrame | hazmat/git_ssh.go:1846-1861 | writing refuses exactly the oversized payloads and otherwise appends the encoding to the stream |
| Frames.Pipe.TakeFrame | hazmat/git_ssh.go:1863-1879 | reading in place gives what the frame decoder says and leaves what it leaves |
| Frames.Pipe.PutRequest | hazmat/git_ssh.go:1809-1824 | the request writer appends the envelope or refuses |
| Frames.Pipe.TakeRequest | hazmat/git_ssh.go:1826-1844 | the request reader in place, with its two size errors |
| Broker.RunKeepsInv | hazmat/git_ssh.go:1504-1589 | every state of every interleaving of the two copiers, the mutex and the exit keeps the wire equal to the completed frames plus a proper start of the lock holder's |
| Broker.EveryStateDecodes | hazmat/git_ssh.go:1504-1589 | at every moment of every interleaving the wire decodes to the frames completely written: no frame is torn by the other copier |
| BrokerReach.ReachedIff | hazmat/git_ssh.go:1504-1589 | the interleavings reach exactly the states the invariant allows in which a copier that has just sent a payload sent the last frame |
| BrokerReach.NeverStuck | hazmat/git_ssh.go:1504-1589 | no deadlock: in every reachable state before the end some step is possible |
| BrokerReach.FinishedLogsIff | hazmat/git_ssh.go:1504-1589 | the frames of finished runs are exactly the lists of nonempty chunks of at most 32 KiB of the two streams, in any order, with one exit frame at the end |
| BrokerReach.NothingAfterEnd | hazmat/git_ssh.go:1549-1571 | a copier whose stream has ended reads no more, sends what it has and stops |
| Broker.FinishedRunIsDelivered | hazmat/git_ssh.go:1416-1434 | a finished run's bytes are stdout and stderr frames and then one last exit frame, and the helper writes exactly the chunks each copier read, each stream in order, and returns the code sent |
| Broker.CutConnectionFails | hazmat/git_ssh.go:1473-1501 | a connection cut anywhere before the end is never success: the helper writes a prefix of each stream and returns 97 |
| Broker.RejectionIsReported | hazmat/git_ssh.go:1416-1434 | a rejected request reaches the helper as its message on stderr and the given code |
| Broker.SuccessMeansFinished | hazmat/git_ssh.go:1473-1501 | the helper returns 0 only for stdout and stderr frames followed by an exit frame whose nine bytes carry zero, and it has written their payloads |
| Broker.FinishedMeansSuccess | hazmat/git_ssh.go:1473-1501 | and it returns 0 for all of that |
| Broker.OtherwiseFailure | hazmat/git_ssh.go:1473-1501 | a read that fails, an exit payload that is not four bytes and a frame of another type each give 97 |
| Broker.RunHelper | hazmat/git_ssh.go:1473-1501 | the helper's loop, in place on the connection, computes the delivery function the results are about |
| ShellQuote.HasUnquotedShellControl | hazmat/git_ssh.go:1778-1807 | the loop over quote and escape state computes the scan |
| ShellQuote.AcceptedIffGenerated | hazmat/git_ssh.go:1778-1807 | the scan accepts exactly the strings an independent grammar of plain characters, backslash pairs and closed quoted segments generates |
| ShellQuote.AcceptedPrefixIsNeutral | hazmat/git_ssh.go:1778-1807 | text after accepted text is judged as if it stood alone, so accepted text is closed under concatenation |
| ShellQuote.ControlRefuses | hazmat/git_ssh.go:1790-1804 | outside quotes nine characters refuse the text whatever follows, and every other one but quotes and the backslash stands for itself |
| SSHConfig.SSHConfigHostMatches | hazmat/git_ssh.go:558-583 | a Host line applies exactly when some pattern admits the host and none excludes it, wherever it stands |
| SSHConfig.HostMatchesIff | hazmat/git_ssh.go:558-583 | on the patterns as written: one that does not begin with '!' matches, and none that does has a matching rest |
| SSHConfig.Reader.ApplySSHConfigFile | hazmat/git_ssh.go:454-541 | the scan loop with its shared resolution and visited set computes the reader's outcome, and terminates on any Include graph |
| SSHConfig.Reader.ApplyIncludes | hazmat/git_ssh.go:497-507 | the Include loops do what reading their files one after the other does |
| SSHConfigInlining.RereadPath | hazmat/git_ssh.go:454-541 | re-applying a finished file under first-value-wins changes nothing |
| SSHConfigInlining.ReaderIsInlining | hazmat/git_ssh.go:437-541 | for any Include graph, cyclic or not, reading with the visited skip equals inlining that cuts only Includes of files still open, errors included |
| SSHConfigInlining.AcyclicReaderIsNaive | hazmat/git_ssh.go:437-541 | for every acyclic Include graph it equals naive inlining of every active Include, errors included |
| SSHConfigInlining.FirstValueWins | hazmat/git_ssh.go:454-541 | each field has the first value given to it, in the order of the inlined lines |
| SSHConfigMeaning.LineGives | hazmat/git_ssh.go:474-536 | a line counts exactly if no block is open or the last one is a Host block that admits the host; then a value line gives its value, an Include line its files, all in order |
| SSHConfigMeaning.IncludeNames | hazmat/git_ssh.go:585-599 | an Include pattern names its matches in order, a blank one nothing, a malformed one an error |
| SSHConfigMeaning.FieldsAreFirstValues | hazmat/git_ssh.go:508-535 | every field of the resolution is the first value a line in force gives that keyword |
| SSHConfigMeaning.PortsAreNumbers | hazmat/git_ssh.go:516-522 | a port the reader gives is a number |
| SSHConfigMeaning.SuccessMeansComplete | hazmat/git_ssh.go:454-541 | a successful read has found and scanned the config file and every file that a line in force includes |
| SSHConfigMeaning.FailureIsReal | hazmat/git_ssh.go:454-541 | a failed read names a fault that is there |
| ProxyJump.AliasPrecedence | hazmat/git_ssh.go:390-435 | what the user typed wins over the config, which user, port, host and key alias result, and when the target counts as configured |
| ProxyJump.Resolver.ResolveSSHConfigAlias | hazmat/git_ssh.go:437-452 | looking a host up in the config file, from a fresh resolution each time |
| ProxyJump.Resolver.ResolveGitSSHTestTargetWithSeen | hazmat/git_ssh.go:390-435 | the recursive walk terminates, computes the resolution, and leaves `seen` as on entry on every exit |
| ProxyJump.Resolver.ResolveSSHConfigProxyJump | hazmat/git_ssh.go:627-653 | the loop over the comma-separated hops, each hop's own jumps before the hop |
| ProxyJumpPaths.ResolvesIffNoBlockedWalk | hazmat/git_ssh.go:390-435 | resolution succeeds if and only if no walk over ProxyJump entries from the host revisits a host or reaches a malformed one |
| ProxyJumpPaths.ResolvesIffAcyclic | hazmat/git_ssh.go:627-653 | when the hosts that walks from the target reach have well-formed entries, it succeeds if and only if no ProxyJump cycle is reachable |
| ProxyJumpPaths.JumpsAreFlattening | hazmat/git_ssh.go:627-653 | the jump list is the recursive flattening of the tree of hops |
| ProxyJumpPaths.TreeIsUnique | hazmat/git_ssh.go:627-653 | that tree is determined by its root entry |
| ProxyJumpPaths.ResolvedTarget | hazmat/git_ssh.go:390-435 | the resolved target field by field: user, port, address, host key alias and whether the config contributed |
| ProxyJumpPaths.LastEntryIsLastJump | hazmat/git_ssh.go:627-653 | the last entry of a ProxyJump value is the last jump, with the user and port written there or else the configured ones |
| JumpSyntax.SummaryRoundTrip | hazmat/git_ssh.go:225-259 | a jump written as user, host and port parses back to itself exactly when it is canonical |
| JumpSyntax.ParsedIsCanonical | hazmat/git_ssh.go:601-625 | parsing only yields canonical jumps |
| JumpSyntax.ParsesIffWritten | hazmat/git_ssh.go:601-625 | an entry reads as a jump exactly if it is that jump written out: user before the last '@', host name in any case, port after a colon |
| JumpSyntax.JumpArgumentRoundTrip | hazmat/git_ssh.go:225-259 | the comma-separated jump argument splits back into the same jumps when no user name holds a comma |
| AssetSync.RerunReachesSame | hazmat/harness_assets.go:351-471 | a sync stopped or failed after any step and rerun reaches the destinations and the set of managed paths of an undisturbed sync |
| AssetSync.RetriesReachSame | hazmat/harness_assets.go:351-471 | the same after any number of stopped or failed attempts |
| AssetSync.RetriesAreBetween | hazmat/harness_assets.go:351-471 | what any number of stopped or failed attempts leaves is what one attempt may leave |
| AssetSync.SecondSyncIsIdle | hazmat/harness_assets.go:351-471 | a second sync changes no file and no manifest entry |
| AssetSync.SecondSyncCounts | hazmat/harness_assets.go:482-518 | after a sync the preview counts only the conflicts that were there before |
| AssetSync.ForeignFilesStay | hazmat/harness_assets.go:351-471 | an existing path the manifest does not know is untouched in every state a sync may stop in |
| AssetSync.StopMayKeepOldFingerprint | hazmat/harness_assets.go:379-383 | the manifests themselves may differ after a stop: an input where a matching managed path keeps its recorded fingerprint |
| AssetSync.ManifestsAgreeIff | hazmat/harness_assets.go:376-471 | exactly when the rerun agrees in everything, recorded fingerprints included: every managed path that did not match and now does has its new fingerprint recorded already |
| AssetSync.RecordedHoldsDesired | hazmat/harness_assets.go:376-443 | every path an undisturbed sync leaves recorded holds the desired asset, kind and fingerprint |
| AssetSync.FinalAt | hazmat/harness_assets.go:376-443 | a desired path, case by case: installed, kept, replaced, adopted exactly if it holds the desired mark, or left alone and unrecorded |
| AssetSync.FinalOther | hazmat/harness_assets.go:445-454 | a path that is not desired goes if it is managed and else stays |
| AssetSync.BetweenKeepsMarks | hazmat/harness_assets.go:376-443 | however a sync ends, a newly recorded path holds the desired asset, and a path that held it is untouched |
| AssetSync.CountedByMarks | hazmat/harness_assets.go:482-518 | the five counts, told by what is at the paths and recorded |
| AssetStore.Store.Diff | hazmat/harness_assets.go:482-518 | the preview loop computes the four change counts and the conflicts |
| AssetStore.Store.Install | hazmat/harness_assets.go:1153-1204 | a copy is made and put into place; what may be found at the path after a stop or failure, no other path changes, and without faults it does not fail |
| AssetStore.Store.ReplaceHarnessAssetPath | hazmat/harness_assets.go:1383-1399 | rename aside, rename into place, remove: what each stop or failure leaves |
| AssetStore.Store.SyncPath | hazmat/harness_assets.go:376-443 | one desired path: kept, adopted, updated, added or left as a conflict, with its count; a failed installation keeps its record and counts as a conflict |
| AssetStore.Store.RemovePath | hazmat/harness_assets.go:445-454 | a removal is forgotten in the manifest only once it is complete |
| AssetStore.Store.Sync | hazmat/harness_assets.go:351-471 | every stop or failure leaves one of the states the results allow; once done every path but those whose installation failed is final and the counts are the preview's, and with enough working operations ahead it is done and none failed |
| AssetStore.Store.SyncEphemeral | hazmat/harness_assets.go:313-349 | the session-local sync is the same sync with an empty manifest that is never written, with the same exact result |
| AssetTree.SnapshotsAgree | hazmat/harness_assets.go:791-993 | the cheap snapshot walk accepts the trees the hashing walk accepts and takes the same snapshot |
| AssetTree.CopyKeepsFingerprint | hazmat/harness_assets.go:1242-1360 | a strict copy has the kind and fingerprint of its source although modes may differ, and is refused for the same trees |
| AssetTree.WalksAcceptPlainTrees | hazmat/harness_assets.go:791-993 | all three walks accept exactly the trees without symlinks and special files |
| AssetTree.Walk.HashHarnessAssetDirInto | hazmat/harness_assets.go:834-889 | the hashing walk in place on its hasher and snapshot |
| AssetTree.Walk.SnapshotHarnessAssetDirInto | hazmat/harness_assets.go:952-993 | the snapshot walk in place |
| AssetTree.CopyHarnessAssetDirStrict | hazmat/harness_assets.go:1242-1289 | the recursive copy, refusing a tree at its first symlink or special file |
| AssetTree.SameBytesIff | hazmat/harness_assets.go:834-889 | directories that give the hasher the same bytes have the same contents if and only if they agree in names, kinds and file lengths |
| AssetTree.FileHidesInContents | hazmat/harness_assets.go:867-879 | no length is hashed: one file whose contents spell out a second file's entry gives the bytes of the two files |
| AssetTree.PortableModeMeans | hazmat/config_import.go:925-935 | the mode of a copied file, bit by bit: the group may what the owner may, and some of them may read |
| AssetPaths.RelTextInjective | hazmat/harness_assets.go:834-889 | different paths below the root are hashed under different names |
| AssetPaths.NestedFileIsHashed | hazmat/harness_assets.go:834-889 | a nested file is hashed under its whole path with its contents |
| AssetPaths.NestedDirIsHashed | hazmat/harness_assets.go:834-889 | and a directory under its path, even an empty one |
| AssetPaths.FileFingerprintIff | hazmat/harness_assets.go:792-823 | a single file has the fingerprint of exactly the files with its contents |
| AssetPaths.CopyAt | hazmat/harness_assets.go:1242-1282 | at every path a copy has what the tree has, with which modes and times |
| AssetFreshness.SnapshotMatches | hazmat/harness_assets.go:909-927 | the key-by-key comparison says yes exactly for an equal, nonempty snapshot |
| AssetFreshness.FreshIffSameMetadata | hazmat/harness_assets.go:900-950 | a preview is judged fresh exactly when the tree has the same shape, modes, sizes and times; an unchanged tree always is |
| GitConfig.ParseINI | hazmat/config_agent.go:486-501 | the reader's loop over lines and headers |
| GitConfig.RenderINI | hazmat/config_agent.go:559-574 | the writer's loops |
| GitConfig.TrimSectionEdgeBlankLines | hazmat/git_safe_directory.go:410-418 | the two trimming loops |
| GitConfig.RewriteHazmatSafeDirectoryConfig | hazmat/git_safe_directory.go:365-408 | the rewrite loop with its `inserted` flag |
| GitConfig.SyncHazmatSafeDirectoryConfig | hazmat/git_safe_directory.go:420-424 | the rewritten text, and that changed means different from the text merely read and written back |
| GitConfigMeaning.HeaderIff | hazmat/config_agent.go:490-498 | a header is a name in square brackets with only space around it |
| GitConfigMeaning.SectionsOf | hazmat/config_agent.go:486-504 | a header and the lines up to the next are one section; lines before any header are the one without a name |
| GitConfigMeaning.ManagedIff | hazmat/git_safe_directory.go:365-388 | a line is managed exactly if it holds the marker, as every written line does |
| GitConfigMeaning.UnmanagedOf | hazmat/git_safe_directory.go:383-389 | unmanaged lines are kept, each in its place |
| GitConfigMeaning.KeptIs | hazmat/git_safe_directory.go:383-390 | of them only blank lines at either end are dropped |
| GitConfigMeaning.OthersStay | hazmat/git_safe_directory.go:371-379 | sections that are neither safe nor a blank preamble stay exactly as they are, in order |
| GitConfigMeaning.ManagedPlaced | hazmat/git_safe_directory.go:371-405 | managed lines go to the end of the first safe section or into a new one at the end; other safe sections keep their own lines, and empty ones are dropped |
| GitConfigDocs.Reread | hazmat/config_agent.go:486-574 | sections that were written read back as they were, up to the empty lines at the very end |
| GitConfigResults.LastWriterWins | hazmat/git_safe_directory.go:365-408 | rewriting for w1 and then w2 equals rewriting for w2, when w1 is nonempty or w2 is empty |
| GitConfigExact.LastWriterWinsIff | hazmat/git_safe_directory.go:365-408 | the exact condition: otherwise it holds if and only if what the first rewrite leaves keeps the place of the managed lines |
| GitConfigResults.Idempotent | hazmat/git_safe_directory.go:365-408 | the rewrite is idempotent |
| GitConfigResults.SecondSyncUnchanged | hazmat/git_safe_directory.go:420-424 | a second sync reports unchanged |
| GitConfigResults.RollbackUndoesSetup | hazmat/git_safe_directory.go:420-432 | rollback after setup equals rewriting the original with an empty list |
| GitConfigOwnLines.RewriteKeepsOwnLines | hazmat/git_safe_directory.go:365-408 | read back, every unmanaged nonblank line is in its section and order and the managed lines are exactly the wanted ones |
| GitConfigEmptyHeader.EmptyHeaderBreaksIdempotence | hazmat/config_agent.go:559-574 | a family of documents with an empty header on which the rewrite is not idempotent |
| GitConfigHeaderless.IdempotentIff | hazmat/git_safe_directory.go:365-408 | for every document, empty headers included: the rewrite is idempotent if and only if no safe section it writes is followed by sections without a header, or that section holds no wanted lines, none of the lines that join it is managed, and they do not end in a blank line |
| SafeDirectory.DedupeHolds | hazmat/git_safe_directory.go:66-84 | the result holds the normalized nonempty entries, each once |
| SafeDirectory.DedupeSafeDirectoryEntries | hazmat/git_safe_directory.go:66-84 | the loop with its `seen` set |
| SafeDirectory.SafeDirectoryCovers | hazmat/git_safe_directory.go:86-107 | the covering test over exact, `*` and `dir/*` entries |
| SafeDirectory.EntryCoversIff | hazmat/git_safe_directory.go:86-107 | an entry covers a repository exactly if it is the wildcard, the repository, or a directory with a trailing wildcard that it is strictly below |
| SafeDirectory.NormalizeMeans | hazmat/git_safe_directory.go:55-64 | what an entry is compared as |
| SafeDirectoryMeaning.DedupePrefix | hazmat/git_safe_directory.go:66-84 | each entry stands at its first place |
| SafeDirectory.SafeDirectoryEntriesFromGitConfigContent | hazmat/git_safe_directory.go:233-256 | complete exactly without include sections, and then the deduplicated values of the safe sections |
| SafeDirectoryMeaning.KeyValueIff | hazmat/config_agent.go:549-557 | a line gives a key its value exactly if it is the key, one blank or none, an equals sign and the value |
| SafeDirectoryMeaning.ValueMeans | hazmat/git_safe_directory.go:258-267 | a value is trimmed and unquoted, and what follows the marker is a comment |
| SafeDirectoryMeaning.IncludeIff | hazmat/git_safe_directory.go:233-240 | which sections make a text incomplete |
| SafeDirectoryMeaning.ValuesOf | hazmat/git_safe_directory.go:235-255 | the values are those of the sections named safe, in order |
| SafeDirectoryMeaning.ValuesOfLines | hazmat/git_safe_directory.go:243-253 | and in them those of the lines that set a directory to something |
| SafeDirectory.WantedLineReads | hazmat/git_safe_directory.go:258-267 | a written entry without quotes, edge spaces or the marker reads back as itself |
| SafeDirectory.RewriteIsReadBack | hazmat/git_safe_directory.go:86-107 | after a rewrite every path strictly below a written `dir/*` entry is covered by what is read back |
| CredentialSync.ChooseCredentialSyncLatest | hazmat/credential_sync.go:202-220 | the chooser's loop over its running best |
| CredentialSync.ChooseIs | hazmat/credential_sync.go:202-220 | exactly: nothing for no candidates, a conflict when some candidate ties with the freshest before it and holds another secret, whatever comes later, else the first of the freshest |
| CredentialSync.ChooseDependsOnOrder | hazmat/credential_sync.go:202-220 | the order of the candidates matters |
| CredentialSync.ChosenDominates | hazmat/credential_sync.go:202-231 | a chosen value is a candidate that none beats and none as fresh contradicts |
| CredentialFreshest.ChosenIsFreshest | hazmat/credential_sync.go:202-231 | on the fields: no candidate has a later generation, or the same and a later time, and one that ties holds the same secret |
| CredentialFreshest.ConflictIff | hazmat/credential_sync.go:202-231 | a conflict exactly if two candidates tie with different secrets and none before the second is fresher |
| CredentialFreshest.ChosenFromHeld | hazmat/credential_sync.go:181-231 | in terms of the endpoints: the freshest valid value some readable one holds, or nothing exactly if none holds one |
| CredentialSync.RedoAfterPicksSame | hazmat/credential_sync.go:126-154 | redoing an after-exit sync stopped at any write picks the same value and meets no new conflict, if store or host cache can be read |
| CredentialSync.RedoBeforePicksSame | hazmat/credential_sync.go:95-124 | redoing a before-launch sync picks the same value, whatever can be read |
| CredentialRedo.RedoAfterIff | hazmat/credential_sync.go:126-154 | exactly when every redo of a stopped after-exit sync picks the same value: store or cache can be read, or clearing is never reached, or a sink that cannot be cleared holds the value with nothing before it that can come to conflict |
| CredentialRedo.SteadyIff | hazmat/credential_sync.go:202-241 | that last condition is what it takes for the choice among the sinks to survive the clearing of any of them |
| CredentialSync.LaunchAfterStoppedExit | hazmat/credential_sync.go:95-154 | a launch after a stopped exit sync goes on with the value that sync had chosen if and only if the store can be read or the host cache by then offers that value |
| CredentialSync.ClearedIsCovered | hazmat/credential_sync.go:126-154 | no sink is found cleared before store and host cache both hold a value at least as fresh |
| CredentialSync.SyncNotLowered | hazmat/credential_sync.go:95-154 | no stop or failure of a sync lowers the freshest value held by store or host cache when both can be read |
| CredentialSync.RunNotLowered | hazmat/credential_sync.go:95-154 | nor does any run of stopped, failed and finished syncs and agent activity |
| CredentialSync.UnreadableStoreMayBeLowered | hazmat/credential_sync.go:181-200 | an input where it fails: without a reader for the store a staler cached value overwrites it |
| CredentialSync.BeforeLowersIff | hazmat/credential_sync.go:95-124 | exactly when a before-launch sync lowers nothing, wherever it stops: no valid value of store or cache is newer than the chosen one, or the store cannot be written, or a cache that cannot be written keeps one as fresh |
| CredentialSync.AfterLowersIff | hazmat/credential_sync.go:126-154 | the same condition for an after-exit sync |
| CredentialSync.NoChoiceLowersNothing | hazmat/credential_sync.go:95-154 | a sync with nothing to choose from, or with a conflict, lowers nothing |
| CredentialSyncer.Syncer.SyncReadEndpoints | hazmat/credential_sync.go:181-200 | the reading loop collects the valid values of the readable endpoints, in order |
| CredentialSyncer.Syncer.SyncCredentialBeforeLaunch | hazmat/credential_sync.go:95-124 | store, cache and sinks in that order, stopped or failing at any read or write; done means all hold the chosen value, and with enough working operations ahead and writable endpoints it is done unless the values conflict |
| CredentialSyncer.Syncer.SyncCredentialAfterExit | hazmat/credential_sync.go:126-154 | store and cache before any sink is cleared; a conflict changes nothing; with enough working operations ahead it is done unless the values conflict |
| CredentialSyncer.Syncer.ClearCredentialSyncAgentSinks | hazmat/credential_sync.go:233-241 | every sink is tried although one fails; done means every clearable sink is empty |
| HookBundle.SnapshotReadsBack | hazmat/hook_approval.go:250-276 | the files written for a snapshot load as the bundle they were written from, whatever paths its manifest names |
| HookMeaning.LoadIff | hazmat/hook_manifest.go:113-181 | a directory reads as a bundle exactly if its manifest is accepted and all it names is there; the bundle holds these files and scripts in the manifest's order |
| HookMeaning.SnapshotHolds | hazmat/hook_approval.go:250-276 | a snapshot holds the manifest, the bundle's files and its scripts, and nothing else |
| HookApproval.BetweenKeepsInv | hazmat/hook_approval.go:100-237 | after every step of approve, chain update and remove, each record points to a complete snapshot that hashes to what was approved, and projects have one record each |
| HookApproval.FinishedApproval | hazmat/hook_approval.go:100-174 | a finished approval leaves one record for its project, and its snapshot holds exactly the approved hooks and files |
| HookMeaning.ApprovalLeaves | hazmat/hook_approval.go:100-174 | field by field: the project's one record names the hash, the time, no chain, and the directory named for project and hash, which reads as the approved bundle |
| HookMeaning.SnapshotsStayOrGo | hazmat/hook_approval.go:100-174 | wherever an operation ends, a snapshot that was there is as it was or gone, and a new one is the approved bundle in its directory |
| HookMeaning.ApprovalClears | hazmat/hook_approval.go:142-171 | the snapshots the project's old records named are gone |
| HookMeaning.RemovalLeaves | hazmat/hook_approval.go:208-237 | after a removal the project has no record, the others keep theirs, and its snapshots are gone |
| HookMeaning.ChainLeaves | hazmat/hook_approval.go:176-197 | a chain update changes the chain of the project's record and nothing else |
| HookMeaning.SortedInOrder | hazmat/hook_approval.go:59-72 | the file is written in the order of the project directories, with the records it is given |
| HookMeaning.BeforeIff | hazmat/hook_approval.go:64-66 | that order is byte order |
| HookApproval.OthersSnapshotsStay | hazmat/hook_approval.go:100-243 | an operation on one project leaves the snapshots of every other project as they are |
| HookApproval.OthersRecordsStay | hazmat/hook_approval.go:48-57 | in every state an operation may stop in, another project's records are all kept or all forgotten |
| HookApproval.OthersRecordsStayIff | hazmat/hook_approval.go:48-57 | once saved they are all kept if and only if the approvals file could be read or no other project had a record |
| HookApproval.RunKeepsInv | hazmat/hook_approval.go:100-237 | over any run of stopped, failed and finished operations the invariant holds in every state |
| HookApproval.RunLeavesOthers | hazmat/hook_approval.go:100-243 | over a whole run the snapshots of a project nobody worked on do not change |
| HookApproval.RecordsWereApproved | hazmat/hook_approval.go:100-237 | every record of any state of a run was there at the start or approved since, for that project and hash |
| HookApproval.RemovedStaysRemoved | hazmat/hook_approval.go:208-237 | after a finished removal a project has no record until it is approved again |
| HookApproval.UnreadableFileForgetsOthers | hazmat/hook_approval.go:48-57 | approving while the approvals file cannot be read can finish with its record as the only one |
| HookStore.ApprovalStore.WriteProjectHookSnapshot | hazmat/hook_approval.go:250-276 | manifest, files and scripts written one by one; done means the whole snapshot |
| HookStore.ApprovalStore.InstallProjectHookSnapshot | hazmat/hook_approval.go:110-137 | an existing snapshot is kept; a missing one is written aside and renamed into place, so no partial one is ever in place |
| HookStore.ApprovalStore.RecordProjectHookApproval | hazmat/hook_approval.go:100-174 | every stop or failure leaves a state the results allow; done means finished, with the file read or not as reported, and with enough working operations ahead it is done |
| HookStore.ApprovalStore.UpdateProjectHookApprovalChain | hazmat/hook_approval.go:176-197 | the first record of the project gets the chain, saved whole or not at all; without faults it is done if and only if the project has a record |
| HookStore.ApprovalStore.RemoveProjectHookApproval | hazmat/hook_approval.go:208-237 | records first, snapshots after; with enough working operations ahead it is done |
| HookStore.ApprovalStore.ValidateProjectHookRuntime | hazmat/hook_runtime.go:232-281 | in a sound state the bundle read back from the approved snapshot always has the hooks and files of the project's bundle, and the check says yes exactly when the approved hash is the bundle's |
| SSHProfileRules.RunLoadable | hazmat/config.go:963-1452 | every SSH key and profile command turns a configuration that loads into one that loads |
| SSHProfileRules.RunsStayLoadable | hazmat/config.go:963-1452 | so does every run of them, refused and unsaved commands included |
| SSHProfileRules.LoadableMeans | hazmat/configmodel/ssh.go:136-188 | in a configuration that loads, every profile a key names is defined and key names differ within a project |
| SSHMeaning.LoadableIff | hazmat/configmodel/ssh.go:136-284 | what loads, condition by condition |
| SSHMeaning.KeyFormIff | hazmat/configmodel/ssh.go:136-222 | a well-formed key: a name, exactly one source of its identity, well-formed hosts, one of them unless a profile may give it some |
| SSHMeaning.ValidNameIff | hazmat/configmodel/ssh.go:12-12 | which characters a name may hold |
| SSHMeaning.NormalizedIff | hazmat/configmodel/ssh.go:319-332 | a host list stands for its hosts, folded and trimmed; a malformed one spoils it |
| SSHMeaning.OverlapIff | hazmat/configmodel/ssh.go:334-366 | two host sets overlap exactly if they share a host or a wildcard of either matches one of the other |
| SSHMeaning.HostsComeFrom | hazmat/configmodel/ssh.go:286-317 | a key's hosts are its own, or else its profile's defaults |
| SSHMeaning.AddKeyIff | hazmat/config.go:963-1074 | adding a key works exactly if its one source exists and the keys with it would load; what the project has then |
| SSHMeaning.RemoveKeyIff | hazmat/config.go:1076-1130 | removing a key works exactly if there is one of that name: what is left always passes the checks |
| SSHMeaning.UnsetIff | hazmat/config.go:1645-1680 | when unset works, and that it takes both kinds of entry away |
| SSHMeaning.AddProfileIff | hazmat/config.go:1168-1230 | exactly when a profile can be added, and what it holds |
| SSHMeaning.RemoveProfileIff | hazmat/config.go:1313-1376 | exactly when a profile can be removed |
| SSHMeaning.RemoveProfileDoes | hazmat/config.go:1336-1361 | it goes with every key that names it, and nothing else changes |
| SSHMeaning.RenameIff | hazmat/config.go:1378-1431 | exactly when a profile can be renamed |
| SSHMeaning.RenameDoes | hazmat/config.go:1378-1431 | the keys that named it name the new one, and nothing else changes |
| SSHProfileRules.KeyCommandsStayInProject | hazmat/config.go:963-1130 | a key command changes no other project and no profile |
| SSHRouting.RenameKeepsRoutes | hazmat/config.go:1378-1431 | after a rename every project resolves to the same keys, names, identities and hosts, or fails as before, so every host selects the same key |
| SSHRouting.RenameBackIff | hazmat/config.go:1378-1431 | renaming there and back restores the configuration if and only if no reference was written with extra spaces |
| SSHRouting.SelectIsOnly | hazmat/git_ssh.go:1901-1928 | a key is selected if and only if it is the only one that matches the host |
| SSHMeaning.SelectsIff | hazmat/git_ssh.go:1901-1928 | a key is selected exactly if it alone has an allowed pattern that matches the host, folded and trimmed |
| SSHMeaning.ResolvesTo | hazmat/git_ssh.go:700-773 | a project with keys gets exactly them in order, each with its name, identity and hosts, or is refused |
| SSHMeaning.ResolvesLegacy | hazmat/git_ssh.go:878-913 | a project with the older entry alone gets its one key |
| SSHMeaning.OtherwiseResolved | hazmat/git_ssh.go:675-698 | a project that says nothing is left alone, and a configuration that does not load gives nothing |
| SSHMeaning.IdentityIff | hazmat/git_ssh.go:797-847 | the files or provisioned key an identity stands for, with the known hosts beside the key when none are named |
| SSHMeaning.SessionHostsIff | hazmat/git_ssh.go:296-319 | which lists a session takes, and which hosts it then allows |
| SSHMeaning.FoldPrefix | hazmat/git_ssh.go:296-319 | they stand at their first places |
| SSHRouting.DeclaredHostSelectsItsKey | hazmat/configmodel/ssh.go:251-284 | what the overlap checks at load time are for: a host written out in a key, or in the profile defaults it inherits, always selects that key |
| SSHRouting.AllowedAreEffective | hazmat/git_ssh.go:737-773 | a session allows a key exactly the hosts validation compared |
| SSHRouting.HostRefusedInSession | hazmat/git_ssh.go:296-319 | a host that only the session's pattern refuses, such as one with a wildcard, refuses every session of a project that loads |
| SSHRouting.UnforcedRemoval | hazmat/config.go:1313-1334 | without --force a profile can be removed if and only if nothing refers to it, and then no session changes |
| SSHRouting.RemoveKeepsOtherRoutes | hazmat/config.go:1313-1376 | removing a profile leaves every project that does not use it on the same keys |
| SSHRouting.ForcedRemoval | hazmat/config.go:1336-1361 | what a project that used the profile resolves to: its other keys, or the legacy key when none is left, or nothing |
| SSHRouting.ForcedRemovalSelects | hazmat/config.go:1336-1361 | --force detaches exactly the keys that use the profile: another key's host still selects that key, a detached key's host is refused |
| SSHRouting.AddProfileKeepsRoutes | hazmat/config.go:1168-1230 | adding a profile changes no session |
| SSHRouting.AddThenRemove | hazmat/config.go:963-1130 | removing the key just added gives the project its keys back and leaves every other project alone |
| SSHCommands.NormalizeProjectSSHHosts | hazmat/configmodel/ssh.go:319-332 | the normalizing loop gives the set of cleaned hosts, or refuses when one is malformed |
| SSHCommands.FirstHostOverlap | hazmat/configmodel/ssh.go:334-366 | two host sets overlap exactly when a host or pattern of one is in or matches a host of the other |
| SSHCommands.ValidateProjectSSHConfig | hazmat/configmodel/ssh.go:136-188 | accepts exactly the key lists with well-formed unique names, one identity source a key, declared hosts for inline keys and no overlap |
| SSHCommands.ValidateProjectSSHProfileRefs | hazmat/configmodel/ssh.go:251-284 | accepts exactly when every named profile is defined and inherited hosts do not overlap |
| SSHCommands.ValidateSSHProfiles | hazmat/configmodel/ssh.go:224-241 | accepts exactly the well-formed profile maps |
| SSHCommands.ConfigFile.LoadConfig | hazmat/config.go:310-331 | the validation part of loading says yes exactly for what the results call loadable |
| SSHCommands.ConfigFile.RunConfigSSHAdd | hazmat/config.go:963-1074 | the whole command: its effect is saved, or it is refused or cannot be saved and nothing changes |
| SSHCommands.ConfigFile.RunConfigSSHRemove | hazmat/config.go:1076-1130 | likewise for ssh remove |
| SSHCommands.ConfigFile.RunConfigSSHUnset | hazmat/config.go:1645-1680 | likewise for ssh unset |
| SSHCommands.ConfigFile.RunConfigSSHProfileAdd | hazmat/config.go:1168-1230 | likewise for profile add |
| SSHCommands.ConfigFile.RunConfigSSHProfileRemove | hazmat/config.go:1313-1376 | likewise for profile remove, with and without --force |
| SSHCommands.ConfigFile.RunConfigSSHProfileRename | hazmat/config.go:1378-1431 | likewise for profile rename |
| SSHCommands.ConfigFile.FindProfileReferrers | hazmat/config.go:1433-1452 | exactly the projects with a key that names the profile |
| AclHealthCache.RowsAnswer | hazmat/acl_health_cache.go:189-198 | the synthetic rows of an entry give back its two answers and nothing by accident |
| AclHealthCache.CachedRowsAre | hazmat/acl_health_cache.go:189-198 | the rows a hit gives, field by field |
| AclMeaning.StartupQuestions | hazmat/init.go:660-672 | the questions asked of rows, on their fields |
| AclMeaning.GrantsPermIff | hazmat/acl.go:168-208 | which row tokens stand for which permission |
| AclHealthCache.RunAnswersAgree | hazmat/acl_health_cache.go:35-74 | over any run of cached reads with any changes to the host between them, every answer agrees with a fresh read on success and on the inheritable dev-group and agent-traverse questions |
| AclHealthCache.SecondReadHits | hazmat/acl_health_cache.go:120-165 | reading again on an unchanged host hits for every path that could be stored |
| AclHealthCache.PlainGrantAnswer | hazmat/acl_health_cache.go:189-198 | for the plain dev-group grant a hit answers as if only inheritable rows counted |
| AclHealthCache.GrantAnswer | hazmat/acl_health_cache.go:189-198 | for any grant, what a hit answers: yes exactly for the dev group with an inheritable row and for the agent without inheritance with a traverse row |
| AclHealthCache.HitAgreesIff | hazmat/acl_health_cache.go:35-74 | and exactly when that agrees with a fresh read |
| AclHealthCache.PlainGrantMissed | hazmat/acl_health_cache.go:189-198 | so it can miss a grant that a fresh read finds: other questions are not answered by the cache |
| AclHealthCache.UniqueACLPaths | hazmat/acl.go:266-280 | the loop keeps the nonempty paths at their first places |
| AclHealthCache.StartupCache.ResultForPath | hazmat/acl_health_cache.go:120-130 | a hit exactly for an entry in the path's current state |
| AclHealthCache.StartupCache.UpdateFromResults | hazmat/acl_health_cache.go:132-165 | which entries are stored, dropped and kept, and that unchanged means unchanged |
| AclHealthCache.StartupCache.RetainPaths | hazmat/acl_health_cache.go:167-187 | exactly the entries of the given paths stay |
| AclHealthCache.StartupACLs.ReadStartupACLsForPaths | hazmat/acl_health_cache.go:35-74 | a result for exactly the nonempty paths, each agreeing with a fresh read, and a sound file afterwards |
| GitHealthCache.SameRecordsSameProblems | hazmat/git_metadata_health_cache.go:135-159 | equal path records mean equal problems, path by path |
| GitHealthCache.RunHitsAreHealthy | hazmat/git_metadata_health_cache.go:34-41 | over any run, a repository the cache calls healthy has no problem a fresh check would find |
| GitHealthCache.CollectGitPermissionProblems | hazmat/git_preflight.go:279-306 | the fresh check's loop over its requirements |
| GitHealthCache.HealthyIff | hazmat/git_preflight.go:29-38 | a repository is healthy exactly if its six paths are, told path by path |
| GitHealthCache.ProblemsSay | hazmat/git_preflight.go:279-306 | which problem is reported for what |
| GitHealthCache.RecordsIff | hazmat/git_metadata_health_cache.go:135-159 | records are taken exactly when every path is there or may be missing, and hold just that |
| GitHealthCache.HealthyIsRemembered | hazmat/git_metadata_health_cache.go:77-110 | a check without problems is remembered, so an unchanged repository is a hit |
| GitHealthCache.CurrentGitMetadataPathStates | hazmat/git_metadata_health_cache.go:135-159 | the loop that takes the path records, or gives up |
| GitHealthCache.GitMetadataHealth.RememberGitMetadataHealth | hazmat/git_metadata_health_cache.go:77-110 | only problem-free states are remembered, whatever fails |
| GitHealthCache.GitMetadataHealth.CollectGitPermissionProblemsCached | hazmat/git_metadata_health_cache.go:34-41 | the cached check gives exactly the problems of a fresh one |
| AclBatch.HeaderIsOwn | hazmat/acl_darwin.go:91-108 | a header is taken for its own path, also when paths hold spaces or end in one another |
| AclBatch.HeaderIsNoRow | hazmat/acl.go:101-146 | a header is never taken for an ACL row |
| AclMeaning.RowIff | hazmat/acl.go:101-146 | a line is a row exactly if it is indentation, a number, a colon and the row's words |
| AclMeaning.PrintedRowReads | hazmat/acl.go:101-146 | a printed row reads back as that row |
| AclMeaning.NumberReads | hazmat/acl.go:107-110 | an index reads as its number, signed or not, exactly if it fits into 64 bits |
| AclMeaning.FieldsAre | hazmat/acl.go:111-114 | the words of a line |
| AclMeaning.RowsOfParts | hazmat/acl_darwin.go:21-33 | the rows of an output are those of its lines, in order |
| AclBatch.ListingRun | hazmat/acl_darwin.go:67-89 | after a listing in any order each path has its own rows, up to the first stray line, and no other path has any |
| AclBatch.SlashLine | hazmat/acl_darwin.go:67-89 | a line that is no row and may hold a slash: if it ends in a path of the listing, the rows after it go to that path, and otherwise they are lost |
| AclBatch.DarwinACLHeaderPath | hazmat/acl_darwin.go:91-108 | the loop finds the longest path the line ends in |
| AclMeaning.LongestIff | hazmat/acl_darwin.go:91-108 | the header path is the longest one that is the line or ends it after a blank |
| AclBatch.ParseDarwinACLBatchOutput | hazmat/acl_darwin.go:67-89 | the line loop that carries the current path |
| AclBatchReads.ChunkAgreesIff | hazmat/acl_darwin.go:21-89 | a batch gives a path the rows that reading it alone gives if and only if no row of that path comes after a line that is neither row nor blank |
| AclBatchReads.SpacedPrincipalIsStray | hazmat/acl.go:101-146 | a principal with a space makes such a line |
| AclBatchReads.StrayLosesRows | hazmat/acl_darwin.go:67-89 | and the row after it is lost to the batch |
| AclBatchReads.ReadACLsOf | hazmat/acl_darwin.go:21-33 | the single read |
| AclBatchReads.ReadOkIff | hazmat/acl_darwin.go:21-33 | it fails exactly if its run does, and then gives no rows |
| AclBatchReads.ReadACLsInBatches | hazmat/acl_darwin.go:35-65 | chunks of 64, with single reads where a run fails or the parse does not know a path |
| AclBatchReads.ReadACLsForPaths | hazmat/acl.go:236-264 | a result for exactly the nonempty paths, each as read alone unless its output has rows after a stray line |
| CredentialLines.MergeHolds | hazmat/git_https_credentials.go:249-269 | the merged file holds the lines of both files, each once, those of the existing file first and in their order |
| MigrationMeaning.MergeIs | hazmat/git_https_credentials.go:249-269 | the existing lines, then the legacy ones not among them, each in order and once |
| MigrationMeaning.ItemsAre | hazmat/git_https_credentials.go:249-269 | the lines that count are the trimmed ones that are not blank |
| CredentialLines.MergeGitCredentialStoreLines | hazmat/git_https_credentials.go:249-269 | the nested loops with their `seen` map |
| CredentialLines.ItemsTrim | hazmat/git_https_credentials.go:223-247 | trimming a file changes none of its lines |
| Migration.RemoveExportsIff | hazmat/config_agent.go:430-463 | removing a variable's exports loses none of its values if and only if each is in the store or archived |
| MigrationMeaning.ExportsIff | hazmat/config_agent.go:413-425 | which lines export a variable |
| MigrationMeaning.ValueReads | hazmat/secret_store.go:285-300 | the value of an exported line: trimmed and unquoted, or without the quotes at its ends |
| MigrationMeaning.NoValue | hazmat/secret_store.go:285-300 | any other line gives no value |
| MigrationMeaning.TrimQuotesIsMiddle | hazmat/secret_store.go:299-299 | all quotes at either end go, and nothing else |
| MigrationMeaning.FirstIsFirst | hazmat/config_agent.go:413-425 | the line that counts is the first that exports the variable |
| MigrationMeaning.WithoutOf | hazmat/config_agent.go:436-449 | removing exports keeps every other line in its place |
| MigrationMeaning.RewriteReads | hazmat/config_agent.go:430-463 | and these are the lines of the file afterwards |
| Migration.EmptiedFileIff | hazmat/config_agent.go:465-477 | the exports file left empty by a stop or failure has lost nothing if and only if every exported value is in the store or archived |
| Migration.MigrationLosesNothingIff | hazmat/credential_migrate.go:211-278 | migrating a variable loses no value if and only if no later line exports a value not held elsewhere; with one line a variable nothing is lost |
| Migration.SecondExportIsLost | hazmat/credential_migrate.go:211-278 | two exports of one variable with different values: the second is lost |
| Migration.AfterMigration | hazmat/credential_migrate.go:211-278 | what a migrated variable still has: its first value, and whatever was in the store or archived |
| Migration.ConservesTrans | hazmat/credential_migrate.go:113-154 | conservation carries over from step to step of a migration |
| Migration.ArchiveEntryKeeps | hazmat/credential_migrate.go:635-647 | archiving a directory at a fresh conflict path loses and overwrites nothing |
| Migration.NextConflictPath | hazmat/credential_migrate.go:661-673 | the search for a conflict path ends, at the first one not taken |
| MigrationMeaning.KeptIs | hazmat/credential_migrate.go:661-681 | a value goes to the store when nothing is there, stays when it is the same, and is archived at the first free path of the stamp otherwise |
| MigrationMeaning.KeepSteps | hazmat/credential_migrate.go:675-681 | keeping takes one write and none when the value is there; a failed write changes nothing |
| MigrationMeaning.RewriteOutcomes | hazmat/config_agent.go:465-477 | what the exports file holds after every outcome of read, open and write |
| MigrationMeaning.VariableSteps | hazmat/credential_migrate.go:211-278 | one variable: what leaves it alone, and that its value is kept before its exports are removed |
| MigrationMeaning.VariablesInTurn | hazmat/credential_migrate.go:211-278 | every variable has its turn, in order, whether those before it failed or not |
| MigrationRuns.RunLosesOnlyExports | hazmat/credential_migrate.go:211-278 | running the exported variables, whatever fails and wherever it stops, loses nothing that the exports file alone did not hold |
| MigrationRuns.NoRunLosesIff | hazmat/credential_migrate.go:211-278 | no such run can lose any value if and only if each variable to move has the only exported value that is neither stored nor archived |
| MigrationRuns.OneEachKeeps | hazmat/config_agent.go:465-477 | with one new value a variable, a run loses a value only if it leaves the exports file emptied |
| MigrationRuns.FaultFreeKeepsIff | hazmat/credential_migrate.go:211-278 | a run in which nothing fails loses no value if and only if no variable exports, after its first value, one that is neither stored nor archived |
| MigrationRuns.CalmRunFinishes | hazmat/credential_migrate.go:211-278 | with enough working operations ahead the run finishes, reads every line, and meets no problem but exports without a value |
| MigrationRuns.RunQuiets | hazmat/credential_migrate.go:211-278 | a run without problems and without a failed read leaves no variable exported |
| Migrator.Migrator.ReadZshrcEnvLine | hazmat/config_agent.go:413-424 | the first line that exports the variable, or none exactly when there is none or the read fails |
| Migrator.Migrator.RemoveLegacyAPIKeyExports | hazmat/config_agent.go:465-477 | read, empty, write: what the exports file holds for every outcome of the three operations |
| Migrator.Migrator.KeepValue | hazmat/credential_migrate.go:675-681 | a value goes to the store or to the first free conflict path, or nothing changes |
| Migrator.Migrator.MigrateProviderAPIKey | hazmat/credential_migrate.go:211-278 | one variable in place computes the run the results are about, with its counts |
| Migrator.Migrator.MigrateProviderAPIKeys | hazmat/credential_migrate.go:211-278 | so does the loop over all variables |
| Migrator.Migrator.MigrateLegacyCloudSecretFile | hazmat/credential_migrate.go:459-511 | the cloud secret file: done means its secret is in the store or archived and the file gone, and any other end leaves that or nothing done; no value is lost, and without faults it does not fail |
| Migrator.Migrator.MigrateLegacyGitHTTPSCredentials | hazmat/git_https_credentials.go:223-247 | the Git HTTPS lines: done means they are merged into the store and the file gone, and any other end leaves that or nothing done; none is lost, the store's lines keep their places, and without faults it does not fail |
| Migrator.Migrator.MigrateCredentialProvisionedGitSSH | hazmat/credential_migrate.go:576-655 | the provisioned key directories: the root is moved whole when there is no new one; otherwise, wherever it stops or fails, each entry is still there, or in the new root if that had none of its name, or in the archive, and nothing else changes; without faults nothing is left in the legacy root |
| Migrator.Migrator.RunMigrateCredentials | hazmat/credential_migrate.go:113-154 | wherever the whole migration stops or fails, nothing outside the exports file is lost, and what the exports file loses is what the run of its variables loses, with its exact conditions; every legacy file still there is a reported problem, and after a run without problems or failed reads a second one finds nothing to do; with enough working operations ahead it finishes without problems; a dry run changes nothing |

## Left out

- Sockets, processes, sudo, `ls`, `chmod` and Keychain calls: each is an abstract read or write that may fail.
- Byte-level YAML and JSON, regular expressions, `filepath.Clean`, `Glob` and `Match`, and SHA-256: functions of the
  environment; the hook hashes are taken as injective and to carry their prefix.
- The lexing of SSH config lines (`hazmat/git_ssh.go:543-556`): the reader's model starts from keywords and values.
- The stdin direction of the broker: the request side is not multiplexed, so nothing interleaves.
- Bytes the ssh process wrote but no copier read: `cmd.Wait` runs before the copiers are joined, and the code promises
  nothing for them.
- Failures of the broker's writes: a broken connection is covered from the helper's side by `Broker.CutConnectionFails`.
- The text of error messages, reports and printed summaries, and the order of lists that only such texts show
  (`findProfileReferrers` sorts, the model returns a set).
- A stop inside one `os.WriteFile` or one `RemoveAll`: each is one step, except that `updateAgentFile` is modelled as
  read, empty and write, where a failing write writes nothing.
- Names with a newline: Git config entries, safe.directory paths and ACL paths are taken without one, and ACL paths as
  absolute and not symbolic links.
- Empty `[]` headers in Git config: excluded from last-writer-wins, rollback and the reading back of own lines; for
  idempotence `GitConfigHeaderless.IdempotentIff` covers every document.
- Unicode spaces and case folding: text is ASCII where the model trims or folds it itself.
- Several harnesses in one asset manifest: the manifest of one harness is modelled; the others are carried along.
- Temporary and backup files of asset installs, and the agent-side backends of install, copy and remove: they differ
  from the host-side ones in who performs the step.
- Hook bundles hold regular files read once; symlink and containment checks of bundle paths
  (`hazmat/hook_manifest.go:305-343`), the review summary stored with a record, and git-side dispatchers.
- HookApproval.Sorted: saved approvals are sorted by a stable insertion, while the library's sort is not stable; with
  one record a project, which the invariant keeps, both give the same file.
- The parts of `loadConfig` other than SSH validation, and cloud credential fields in config.yaml
  (`hazmat/credential_migrate.go:391-457`), which overwrite the store without an archive.
- SSHProfileRules.RunUnset: which names `ssh unset` accepts as a confirmation is a function of the environment.
- Harness authentication files, the legacy Git HTTPS helper line, and a legacy key root that is not a directory, in the
  migration.
- CredentialSync: agent sinks are outside the results on what never gets older, because a launch does not read them.
- Diagnostic, policy and repair registries, import planning, session export, prompts, completion and bootstrap scripts:
  tables and single loops without a hard property.
