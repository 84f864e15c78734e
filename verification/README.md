# Verified model of the companion's durable-state code

The desktop companion and its license generator move state that must survive failures and other actors: a first-launch
profile that is published by renaming, a revocation registry shared by several processes, encrypted bundles that are
inspected before they are unpacked, key backups in three formats, save queues in the front end. This project models
that code in Dafny and proves what it is for. `dafny verify dfyconfig.toml` checks everything.

Modules, by component:

| module | models |
|---|---|
| `Fingerprint`, `SeedTarget`, `SeedInstall`, `DiskBound` | the first-launch seed: tree fingerprints, the target classifier, the install protocol with a foreign writer between any two steps, the disk-space bound |
| `Revocation`, `RevocationRuns`, `RevocationStore` | the revocation registry: records and reconciliation, runs of any number of processes on one state file, the same code as classes |
| `BackupRestore`, `KeyBackup` | adopting a backup across two stores with in-place wiping; the three backup formats |
| `EncryptedStream` | the chunking writer and the record reader |
| `ArchivePaths`, `ArchiveScan`, `Archive`, `ArchivePack`, `BundleImport` | safe names, the scan loop, extraction call by call, packing and its round trip, the two-pass import |
| `SaveQueue`, `RoleQueue` | the promise chains of the front end as event systems |
| `Canonical` | word aggregation over unordered maps |
| `Ordering`, `Splitting` | sorting under a strict total order; splitting text at a separator |

How the parts are modelled. Code that changes state step by step is a class or a method with a loop, tied to a
specification function; the main theorems are lemmas about those functions or postconditions over whole runs. A
foreign process is a method that may do anything its reach allows (`SeedInstall.Volume.Foreign`,
`RevocationStore.StateFile.OthersRun`). System calls may fail at any point, except on objects marked `reliable`, for
which the contracts say exactly when an operation succeeds. SHA-256 is a free constructor, so equal
digests mean equal contents; the AEAD is a pair of functions with unforgeability and correctness stated as
predicates, which `EncryptedStream.CipherExists` shows compatible (`KeyBackup.CodecExists` does the same for the
backups' codec); gzip, tar, JSON, base64, SQLite and Unicode
classes are parameters.

Results that are not what one might expect:

- A target that "requires a seed" need not be replaceable. The two tests differ on the two drive-account directories
  (`SeedTarget.RequiresSeedReplaceable`, `SeedTarget.RequiresSeedNotReplaceable`), and the other way round on a bolt
  entry that is neither file nor link (`SeedTarget.ReplaceableRequiresSeed`).
- Left alone, an import on a target with such a directory never succeeds, however often it is tried
  (`SeedInstall.Import`).
- Reconciliation may lower the sequence of an unpublished record; exactly when, says `RevocationRuns.DropsExactly`, and
  `RevocationRuns.PendingSequenceMayDrop` gives an example.
- The uncompressed-size error is not sticky: each byte beyond the limit earns one, then the reader reports a clean end
  (`BundleImport.LimitReader.ReadAgain`). The program stops at the first one
  (`BundleImport.LimitReader.Drain`).
- In the two-pass import the footprint comparison can never decide: equal digests already force equal footprints
  (`BundleImport.TwoPasses`).
- The footprint's byte count wraps at 64 bits. The disk bound covers an extraction exactly when the true sizes fit
  (`BundleImport.PreflightCovers`); `BundleImport.WrappedFootprint` is an archive for which it does not. Ordinary members
  never get there: the 64 GiB limit on uncompressed bytes stops them long before (`BundleImport.OrdinaryCovers`). Only
  sparse tar members declare more than the stream carries.
- Handles a manifest brings into a store can fail to be restorable for the id made from them alone: it may be too long or
  taken (`RevocationRuns.ReconcileExact`).
- A bundle packed from names with backslashes is written but can never be read back (`ArchivePack.RoundTrip`, and
  `ArchivePack.BackslashLost` for one tree).

## Model

| member | source | states |
|---|---|---|
| SeedInstall.Import | internal/app/first_launch_seed.go:147-237 | Under every interleaving with a foreign writer every tree that a target name led to at any moment of the run still exists, and the histories of exposed and deleted trees only grow. Success comes with a receipt of the checks made, whose two fingerprints are those of the data and the marker in the bundle; with an idle environment the target then is exactly that seed. On an error in an idle environment the target is what it was, unless a rename out of the target or a swap back was asked for and refused; if nothing was moved, staging is gone as well. Without a foreign writer and with working system calls it succeeds if and only if the bundle is usable, the target requires a seed and its data has no drive-account directory; it reports no error exactly when the target does not ask for a seed, and which error otherwise |
| SeedInstall.RunImporters | internal/app/first_launch_seed.go:158-174 | Of any number of importers taking the lock in turn, with foreign writes in between, the results say which succeeded: each of those has its receipt, for its own bundle; at most one succeeds unless a marker is taken away, none if a marker was there; left alone, the first succeeds exactly when its bundle is usable and the target can be seeded; and across all of them no tree a target name has led to is deleted |
| SeedInstall.Install | internal/app/first_launch_seed.go:343-371 | Commit, rollback or quarantine: staging may be deleted only when it holds no exposed tree, and is kept exactly after a first transition that was a swap or did not lead to success; an error in an idle environment restores both target names unless an undoing rename or swap was attempted and refused; without interference it fails only on data that may not be displaced |
| SeedInstall.InstallOverPristine | internal/app/first_launch_seed.go:373-422 | The swap path: a displaced tree was the observed one and then held nothing of value, before anything was validated |
| SeedInstall.PublishMarker | internal/app/first_launch_seed.go:424-452 | Publishing the marker either leaves both names proven and bound or undoes exactly the transitions made; in an idle environment only a refused attempt at undoing excuses it |
| SeedInstall.ValidatePublished | internal/app/first_launch_seed.go:471-494 | No error means that at three later moments, in this order, the root held data and marker and nothing unknown, the data had the staged fingerprint, and the marker had its own |
| SeedInstall.RollbackPublished | internal/app/first_launch_seed.go:574-596 | In an idle environment both names return to where they were unless one of the two attempts to take something back was refused, which working system calls never do |
| SeedInstall.Volume.RenameNoReplace | internal/app/first_launch_rename_darwin.go:9-14 | The first primitive: binds a free name or changes nothing |
| SeedInstall.Volume.Exchange | internal/app/first_launch_rename_darwin.go:16-21 | The second primitive: swaps two bound names or changes nothing |
| SeedInstall.ForeignMayAct | internal/app/first_launch_seed.go:354-360 | The foreign writer of the model is no straw man: between any two steps it may put any tree under a target name, take both names away and rewrite the rest of the root |
| SeedInstall.ReceiptMeaning | internal/app/first_launch_seed.go:373-494 | What success proves about trees: the published ones agreed with the staged ones and with those in the bundle in shape, names, modes, sizes, identities and contents; the displaced one agreed with the observed one and held at no depth a file but an empty bolt file or a replaceable database |
| SeedInstall.SeedableMeans | internal/app/first_launch_seed.go:988-1097 | On a target that requires a seed, the data may be displaced if and only if it has no drive-account directory; nothing else in the root is in the way |
| SeedTarget.InspectTarget | internal/app/first_launch_seed.go:703-803 | The flag-keeping loop, with its helpers, computes an order-free classification of the root |
| SeedTarget.InspectData | internal/app/first_launch_seed.go:974-1033 | The loop over the entries, and the walk below each directory, compute an order-free classification of the data directory |
| SeedTarget.IsDataReplaceable | internal/app/first_launch_seed.go:1071-1135 | The loop with its database opened last equals a test of each entry by itself |
| SeedTarget.InspectTree | internal/app/first_launch_seed.go:1035-1069 | The walk of one directory tells trees with special files, with files, and with neither apart |
| SeedTarget.InspectMarker | internal/app/first_launch_seed.go:920-972 | One file, of 1 to 4096 bytes, that decodes |
| SeedTarget.InspectProxy | internal/app/first_launch_seed.go:805-865 | The one directory with the files and the safe tree it may hold |
| SeedTarget.InspectPublished | internal/app/first_launch_seed.go:496-572 | The two-flag loop computes the classification of a published root |
| SeedTarget.DataExact | internal/app/first_launch_seed.go:974-1033 | Which data directories are blocked, which hold a profile and which require a seed, told by paths: sidecars, special files at any depth, unknown names, an unreadable database; else files below the directories, a bolt file with content, a database in use; else neither |
| SeedTarget.RootExact | internal/app/first_launch_seed.go:703-803 | The same for a whole root: place by place what may stand beside data and marker, and what the marker must be |
| SeedTarget.PublishedExact | internal/app/first_launch_seed.go:496-572 | Which roots pass as published and which as untouched |
| SeedTarget.ReplaceableExact | internal/app/first_launch_seed.go:1071-1135 | A data directory may be displaced if and only if it has no sidecar, only the six directories, and at every path a directory, an empty bolt file or a replaceable database |
| SeedTarget.ReplaceableRequiresSeed | internal/app/first_launch_seed.go:974-1135 | Apart from special files, what may be displaced requires a seed |
| SeedTarget.MarkerEndsSeeding | internal/app/first_launch_seed.go:793-802 | With a marker in the root no classification asks for a seed, whatever the database holds |
| SeedTarget.RequiresSeedReplaceable | internal/app/first_launch_seed.go:988-1097 | A data directory that requires a seed is replaceable if and only if it has no drive-account directory |
| SeedTarget.RequiresSeedNotReplaceable | internal/app/first_launch_seed.go:988-990 | A concrete directory on which the two tests differ |
| SeedTarget.ReplaceableHoldsNothing | internal/app/first_launch_seed.go:1071-1135 | At no depth does a replaceable tree hold any other regular file |
| Fingerprint.WalkDirectory | internal/app/first_launch_fingerprint_unix.go:57-109 | The recursive walk appends the sorted pre-order listing, whatever order the directory was read in |
| Fingerprint.AppendEntry | internal/app/first_launch_fingerprint_unix.go:111-144 | One entry and what lies below it |
| Fingerprint.WalkInjective | internal/app/first_launch_fingerprint_unix.go:57-144 | Equal walks followed by anything outside them come from agreeing children |
| Fingerprint.FingerprintExact | internal/app/first_launch_seed.go:617-635 | Equal fingerprints if and only if the trees agree in shape, names, modes, sizes, identities and contents |
| Fingerprint.FingerprintExists | internal/app/first_launch_fingerprint_unix.go:22-109 | A tree has a fingerprint if and only if it is a directory and at no depth there is a link, a special file or a name that is not one component |
| DiskBound.CheckedMultiply | internal/app/first_launch_seed.go:298-303 | The division test catches exactly the products that overflow |
| DiskBound.CheckedAdd | internal/app/first_launch_seed.go:309-314 | Exactly the sums that overflow |
| DiskBound.RequiredBytesExact | internal/app/first_launch_seed.go:271-296 | Succeeds if and only if the block size is nonzero and the true sum, with the larger of the reserve and the database, fits 64 bits, and then equals it |
| DiskBound.RequiredBytesCover | internal/app/first_launch_seed.go:271-296 | Bounds the block-rounded sizes of any files with that footprint, a block per directory, and the reserve |
| DiskBound.SumRoundedBound | internal/app/first_launch_seed.go:275-283 | Rounding costs at most a block less one byte per file |
| Revocation.ReconcileStates | cmd/license-generator/revocation_restore.go:19-73 | The map-building loops compute `Reconcile` |
| Revocation.RestampLocal | cmd/license-generator/revocation_restore.go:29-50 | Stops at the first contradiction, otherwise restamps every listed local record and knows every local handle |
| Revocation.CheckEvidence | cmd/license-generator/revocation_restore.go:75-100 | The loop with its set decides validity of a manifest |
| Revocation.Rules.CheckRecord | cmd/license-generator/revocation_state.go:181-209 | The test of one record in the program's order decides admissibility |
| RevocationRuns.ReconcileMeaning | cmd/license-generator/revocation_restore.go:19-73 | One record per handle of local and remote together; remote handles published at the manifest's sequence, digest and time; unlisted local records unchanged and never published |
| RevocationRuns.ReconcileExact | cmd/license-generator/revocation_restore.go:19-73 | Reconciliation succeeds if and only if the key is a pair, the manifest is trustworthy, a valid store has the same key and has published nothing the manifest does not list at no lower sequence, the digest makes a valid identifier if anything is listed, and the handles brought in make valid and new event ids; it reports a key mismatch exactly on a valid store with another key |
| RevocationRuns.ReconcileOrder | cmd/license-generator/revocation_restore.go:36-66 | Local records keep their places and names, the new ones follow under ids made from their handles |
| RevocationRuns.RestorePlanExact | cmd/license-generator/revocation_restore.go:19-73 | When a restore into a store that has a state is saved, in terms of its records and the manifest alone |
| RevocationRuns.FirstRestoreExact | cmd/license-generator/revocation_restore.go:19-73 | When a restore into an empty store is saved, and that it makes one record for each entry, in order |
| RevocationRuns.FlagPlansExact | cmd/license-generator/service.go:285-311 | Confirming and restoring an older backup change the flag and nothing else, if it is not as they want it |
| RevocationRuns.ReconcileIdempotent | cmd/license-generator/revocation_restore.go:19-73 | The same evidence again changes nothing |
| RevocationRuns.DropsExactly | cmd/license-generator/revocation_restore.go:37-48 | For every planned operation: a record's sequence goes down if and only if a restore with a revocation key lists its handle in a manifest with a lower sequence; never for a published record |
| RevocationRuns.PendingSequenceMayDrop | cmd/license-generator/revocation_restore.go:37-43 | A concrete pending record to which that happens |
| RevocationRuns.PrepareExact | cmd/license-generator/revocation_registry.go:80-117 | A preparation saves if and only if the handle is unknown and everything is well formed, and appends exactly its pending record |
| RevocationRuns.OutcomeExact | cmd/license-generator/revocation_registry.go:134-169 | An outcome saves if and only if its event's record is unpublished and the outcome is valid, new and not older; then that one record carries it and nothing else changes |
| RevocationRuns.PlanAdvances | cmd/license-generator/revocation_registry.go:68-189 | Whatever an operation plans on a valid state is valid and only advances it |
| RevocationRuns.SavesBuildOnDisk | cmd/license-generator/revocation_state_windows.go:80-135 | No update is lost: whatever a save writes is its operation applied to the state on disk at that moment |
| RevocationRuns.UndisturbedTakesEffect | cmd/license-generator/revocation_registry.go:68-169 | Left alone between its two halves, an operation makes the file what it makes of the file |
| RevocationRuns.ConflictWritesNothing | cmd/license-generator/revocation_state_windows.go:80-135 | A file that has changed since it was read is never overwritten |
| RevocationRuns.StartExact | cmd/license-generator/revocation_registry.go:24-66 | A process that starts takes over the file, waits to be restored, or provisions a fresh state |
| RevocationRuns.MatchesExact | cmd/license-generator/revocation_state_windows.go:53-135 | A baseline fits just the file it was taken from |
| RevocationRuns.StepAdvances | cmd/license-generator/revocation_registry.go:68-189 | One step of any process keeps the invariant and only advances the stored state |
| RevocationRuns.RunAdvances | cmd/license-generator/revocation_registry.go:24-189 | Along every run of any number of processes, crashes included: stored state valid, keys fixed, no record lost, published records stay published with sequence not going down |
| RevocationRuns.RefreshExact | cmd/license-generator/revocation_registry.go:171-189 | A refreshed memory is the decoded file, private key included |
| RevocationRuns.InitiallySound | cmd/license-generator/revocation_registry.go:24-66 | The invariant holds where every run starts |
| RevocationStore.Repository.Load | cmd/license-generator/revocation_state_windows.go:53-78 | Every read that reached the file moves the baseline to it, even one that does not decode |
| RevocationStore.Repository.Save | cmd/license-generator/revocation_state_windows.go:80-135 | Compare and swap: writes only over the file last observed, or where none was observed and none is there; with working writes it succeeds exactly then |
| RevocationStore.Registry.Open | cmd/license-generator/revocation_registry.go:24-66 | The bootstrap: the decoded file, a wait for a restore, or fresh keys saved where no file has appeared meanwhile. With working reads and writes it succeeds if and only if the file found decodes, or there is none and either a restore is awaited or none has appeared before the save |
| RevocationStore.Registry.RestoreFirst | cmd/license-generator/revocation_restore.go:19-73 | A first restore writes what the manifest yields; with working reads and writes exactly when the key is a pair, all the manifest lists makes valid records, and there is still no file |
| RevocationStore.Registry.Refresh | cmd/license-generator/revocation_registry.go:171-189 | The method does what the run model's refresh does |
| RevocationStore.Registry.Execute | cmd/license-generator/revocation_registry.go:80-169 | With other processes running before and between: a write is the planned change of exactly the file then on disk, memory and file agree afterwards, and with working reads and writes it fails only on a file that does not fit or has changed between |
| RevocationStore.Registry.Prepare | cmd/license-generator/revocation_registry.go:68-117 | The result describes the handle's own record among those in the file on disk, the highest sequence seen and the published handles. With working reads and writes there is one if and only if the request is well formed, the file fits, and the handle is on file or its pending record is planned and the file has not changed before the save |
| RevocationStore.Registry.RecordOutcome | cmd/license-generator/revocation_registry.go:119-169 | On success the event's record on file bears the outcome; with working reads and writes it succeeds if and only if the file fits and the record bears it already, or awaits it and the file stays until the save |
| RevocationStore.PublishedHandlesExact | cmd/license-generator/revocation_registry.go:191-222 | Just the handles of published records are listed |
| RevocationStore.PublishedHandlesOrder | cmd/license-generator/revocation_registry.go:191-222 | A published record's handle comes right after those of the published records before it |
| RevocationStore.PrepareRevocation | cmd/license-generator/revocation_registry.go:191-222 | One pass finds the maximum sequence and the published handles in order |
| Revocation.Rules.CheckState | cmd/license-generator/revocation_state.go:154-179 | The two-set loop decides validity: key pair, admissible records, unique handles and event ids |
| BackupRestore.Generator.ConfirmBackup | cmd/license-generator/service.go:279-326 | Both stores and flags change together or not at all, unless both stores refused a save; it succeeds if and only if the state was readable and no save was refused. A crash leaves the old states, the new ones, or only the signing state confirmed |
| BackupRestore.Generator.RestoreBackup | cmd/license-generator/service.go:328-428 | Success, field by field: the license key and its public half are the backup's, seed and revocation key too where it has them, flags and records follow, the history of issued licenses stays; both stores hold that state and the live key arrays read as stored, so none of them was zeroed, while replaced arrays are wiped. Error: live state untouched, the backup's arrays wiped, stores as before unless both refused a save. It succeeds if and only if its checks pass and no save was refused; a crash leaves the old states, the adopted ones, or only the signing state adopted |
| BackupRestore.Generator.SaveBoth | cmd/license-generator/service.go:396-404 | The two saves: they succeed unless one is refused; then the stores are in step, and only where both refused does the signing store keep the new state. Also what each crash in between leaves on disk |
| BackupRestore.Wipe | cmd/license-generator/service.go:550-554 | Every byte is zero |
| EncryptedStream.NonceInjective | internal/bootstrapstate/crypto.go:142-146 | Different indices below the limit never share a nonce, and additional data fixes flag and index |
| EncryptedStream.Writer.Write | internal/bootstrapstate/crypto.go:88-110 | Whatever the split into calls, the accepted data is appended, also when the destination fails |
| EncryptedStream.Writer.Close | internal/bootstrapstate/crypto.go:112-123 | Output is the canonical stream of the data; no index ever seals two different texts, even across failures; it fails only with the destination, and a later call does nothing |
| EncryptedStream.Reader.Read | internal/bootstrapstate/crypto.go:207-219 | Everything delivered is a prefix of what was sealed, and no more than the caller has room for; end of file only after all of it, with the terminal record last and the source exhausted |
| EncryptedStream.Reader.ReadRecord | internal/bootstrapstate/crypto.go:221-258 | The index moves on as soon as a record opens, and an honest stream is never rejected |
| EncryptedStream.ReadAnything | internal/bootstrapstate/crypto.go:177-258 | On an arbitrary byte stream, with any buffer sizes and on past errors, the caller gets only a prefix of the original; an end of file means all of it was delivered and the terminal record came last; and if no error came before, the bytes behind the header were exactly the stream that was written |
| EncryptedStream.WriteAll | internal/bootstrapstate/crypto.go:57-146 | The bytes depend on the concatenation alone; indices 0 to n are sealed once each, in order; with a reliable destination it succeeds |
| EncryptedStream.WriteThenRead | internal/bootstrapstate/crypto.go:57-258 | With a reliable destination and source, reading back what was written, in pieces of any size, returns exactly it |
| EncryptedStream.SplitCanonical | internal/bootstrapstate/crypto.go:88-110 | Full chunks with a shorter rest are the one split of their concatenation |
| EncryptedStream.CipherExists | internal/bootstrapstate/crypto.go:125-140 | The two assumptions on the cipher can hold together, for every way of sealing |
| EncryptedStream.HeaderExact | internal/bootstrapstate/crypto.go:177-205 | A header is accepted if and only if it is there, starts with the magic and names a chunk of 1 byte to 16 MiB; the fields by position |
| ArchivePaths.SafeNames | internal/bootstrapstate/archive.go:309-318 | A name is accepted if and only if it has no backslash and all its components are plain |
| ArchiveScan.InspectionExact | internal/bootstrapstate/archive.go:143-297 | Inspection accepts exactly the lists of individually acceptable members with one manifest at most and not too many entries; its counters are totals over the list |
| ArchiveScan.AcceptableExact | internal/bootstrapstate/archive.go:174-257 | What makes one member acceptable, by the letter of its name, its kind and its size |
| ArchiveScan.FirstRefusal | internal/bootstrapstate/archive.go:168-257 | Which error a refused list gets: the first member that cannot be taken decides, by its name and kind, between an unsafe path and a bad bundle |
| ArchiveScan.ExtractionExact | internal/bootstrapstate/archive.go:143-297 | Extraction into an empty destination succeeds if and only if inspection does and no file clashes with another member; both report the same, and the tree is exactly the named directories and files |
| ArchiveScan.ExtractionMeaning | internal/bootstrapstate/archive.go:203-262 | Directories counted are directories made, files counted are files made with their contents, the database reported is the one made, with its size, and all of it lies below `data` under plain names |
| ArchiveScan.DirsExact | internal/bootstrapstate/archive.go:209-297 | The directories made are those above an entry, and those with an entry of their own |
| Archive.ScanArchive | internal/bootstrapstate/archive.go:143-283 | The loop, with or without destination, computes `ScanStream` unless it is interrupted |
| Archive.ScanMember | internal/bootstrapstate/archive.go:174-257 | One turn of the loop, in the program's order of checks and calls |
| Archive.Destination.MakeDirectories | internal/bootstrapstate/archive.go:209-214 | Directory by directory gives what making the whole path means |
| Archive.Destination.WriteNew | internal/bootstrapstate/archive.go:232-254 | Exclusive creation below directories made on the way |
| Archive.AddMaterializedDirectories | internal/bootstrapstate/archive.go:285-297 | The climbing loop adds exactly the prefixes of the entry or its parent |
| ArchivePack.WriteArchive | internal/bootstrapstate/archive.go:61-133 | Written in full if and only if no entry is a sidecar or special; otherwise the first such entry decides the error |
| ArchivePack.SidecarExact | internal/bootstrapstate/archive.go:131-134 | The sidecars are the two names in any mixture of cases |
| ArchivePack.RoundTrip | internal/bootstrapstate/archive.go:18-297 | For every tree and every order of the walk: scanning what was packed succeeds if and only if the archive stays within the limit on uncompressed bytes, no name holds a backslash and the entries are not too many, and rebuilds the same tree below `data` with the same manifest |
| ArchivePack.BackslashLost | internal/bootstrapstate/archive.go:103-111 | A concrete tree that is packed without an error and never read back |
| ArchivePack.SizesWritten | internal/bootstrapstate/archive.go:104-121 | The sizes an archive declares are those of the files packed |
| BundleImport.PackThenExtract | internal/bootstrapstate/archive.go:61-297 | The program's two loops run one after the other: packing succeeds exactly on a packable tree, extraction exactly under the round trip's condition, and the tree is back |
| BundleImport.LimitReader.Read | internal/bootstrapstate/archive.go:37-52 | Delivers no more than the limit; at the limit probes one byte, and a byte there is the limit error, also when the reader below fails with it; other ends and failures are passed on |
| BundleImport.LimitReader.Drain | internal/bootstrapstate/archive.go:263-271 | Draining ends cleanly only with everything delivered and within the limit, and reports the limit only beyond it; otherwise the reader below has failed |
| BundleImport.LimitReader.ReadAgain | internal/bootstrapstate/archive.go:38-45 | After the limit every limit error consumes one byte, and none follows a clean end; on a working reader the k-th read fails exactly while bytes are left |
| BundleImport.TwoPasses | internal/bootstrapstate/state.go:169-198 | Two successful passes over the same bytes have the same tally |
| DiskBound.WrappedBytesNeverCover | internal/app/first_launch_seed.go:271-296 | A granted amount covers the files, the directories and once more the database, counted modulo 2^64, if and only if neither byte nor directory count has wrapped |
| BundleImport.PreflightCovers | internal/app/first_launch_seed.go:253-296 | For every successful extraction: what the preflight was granted covers what was made, and once more the database, if and only if the declared sizes together, and the directories, fit 64 bits |
| BundleImport.OrdinaryCovers | internal/bootstrapstate/archive.go:18-21 | An archive that weighs at least its contents and a byte per directory, and passes the 64 GiB limit, is always covered by the amount granted |
| BundleImport.WrappedFootprint | internal/bootstrapstate/archive.go:217 | A concrete archive whose declared sizes add up to 2^64: it extracts, its footprint counts no bytes, and the amount granted is too small. Under the 64 GiB limit on the stream only sparse members can declare such sizes |
| BundleImport.Root.Import | internal/bootstrapstate/state.go:159-209 | Success: both openings were the same bytes, data is exactly what the members name with a database in it, the preflight agreed to that footprint, the manifest has the schema, the version and the identifier asked for, all secrets are allowed and not empty, and these and no others were written. Until it installs secrets, which it does for such a bundle only, nothing has changed; after that a failure may have written some of the secrets and nothing else, and the data is what it was unless putting it back failed. With nothing failing by itself it succeeds if and only if all of that can be had, and a bundle refused by the first pass gets the error that pass decides on |
| BundleImport.Validate | internal/bootstrapstate/state.go:229-241 | Lets pass exactly a manifest meant for the importer in an archive with a database; a version mismatch exactly if nothing else is wrong |
| BundleImport.Root.InspectBundle | internal/bootstrapstate/state.go:169-183 | The first pass decides between success, another version, no room, an unsafe path and a bad bundle, each under its exact condition |
| BundleImport.Root.ExtractBundle | internal/bootstrapstate/state.go:191-203 | The second pass yields tree and manifest only of the very stream that was inspected |
| BundleImport.PackedImports | internal/bootstrapstate/state.go:93-209 | A data tree packed with a manifest is imported, where nothing fails by itself, if and only if it holds a database, no name holds a backslash, entries and bytes are within the limits, the manifest is meant for the importer, its secrets are valid and there is room; what is extracted is the tree |
| BundleImport.PackedIsMeant | internal/bootstrapstate/state.go:109-115 | A packed manifest is meant for exactly those with its version who ask for its identifier or for none |
| BundleImport.CollectSecrets | internal/bootstrapstate/state.go:258-277 | Every allowed secret there is, encoded; refused exactly if one is empty |
| BundleImport.SecretsComeBack | internal/bootstrapstate/state.go:258-295 | What was collected is valid on the other side and installs as what was read |
| BundleImport.Root.InstallSecrets | internal/bootstrapstate/state.go:279-295 | In any map order: success means all entries valid and written |
| BundleImport.Root.ReplaceDataAndMark | internal/bootstrapstate/state.go:297-333 | The marker never carries secrets; a failure keeps the marker, and the data unless an attempt to put it back failed |
| SaveQueue.NeverOverlap | frontend/src/keywordSettingsSaveQueue.ts:22-62 | In every schedule operations never overlap and run in call order |
| SaveQueue.SavesExactlyWhenClear | frontend/src/keywordSettingsSaveQueue.ts:22-31 | A save is made if and only if no exclusive operation was unfinished at its call and none was called since; then none is unfinished |
| SaveQueue.AppliesExactlyWhenNewest | frontend/src/keywordSettingsSaveQueue.ts:32-42 | Apply fires if and only if the save was made, succeeded, and nothing newer was enqueued, invalidated or run exclusively; errors likewise |
| SaveQueue.LatestCounts | frontend/src/keywordSettingsSaveQueue.ts:17-62 | The request counter counts exactly the events that make requests stale |
| SaveQueue.FailedExactly | frontend/src/keywordSettingsSaveQueue.ts:26-42 | An operation has failed if and only if its promise was rejected in the schedule |
| SaveQueue.StartsExactly | frontend/src/keywordSettingsSaveQueue.ts:26-59 | A turn comes exactly when every operation called before has let go |
| SaveQueue.NeverStuck | frontend/src/keywordSettingsSaveQueue.ts:22-62 | As long as an operation is unfinished, the first such one can go on |
| SaveQueue.Queue.StartOperation | frontend/src/keywordSettingsSaveQueue.ts:26-30 | The callback on the class is the step of the event system |
| SaveQueue.Queue.ReactTo | frontend/src/keywordSettingsSaveQueue.ts:32-59 | The reaction on the class is the step, and reports when apply and onError fire |
| RoleQueue.OneRequestAtATime | frontend/src/accounts.ts:92-132 | Requests of one account never overlap and go out in call order |
| RoleQueue.DrainedShowsConfirmed | frontend/src/accounts.ts:92-132 | A drained queue shows the role the server confirmed last, or the initial one |
| RoleQueue.DisplayExact | frontend/src/accounts.ts:92-132 | What is displayed, told from the events alone: the role asked for last while that request is open, then the role confirmed last or named by the caller when the queue began |
| RoleQueue.TurnsExactly | frontend/src/accounts.ts:114-131 | A turn comes exactly when all changes before are done, a queue that has not drained can always go on, and it is dropped exactly when drained |
| RoleQueue.AccountsIndependent | frontend/src/accounts.ts:98-112 | An event of one account leaves the others' queue and display alone |
| RoleQueue.RoleChanger.Finish | frontend/src/accounts.ts:114-124 | The reply handler on the class is the step of the event system, and reports an error exactly for a failed newest request |
| Canonical.TokenLanguage | internal/analytics/canonical.go:262-280 | The loop decides: one script throughout, or none |
| Canonical.PreferredCanonical | internal/analytics/canonical.go:217-235 | The two loops compute the preferred form |
| Canonical.PreferredExact | internal/analytics/canonical.go:217-235 | The first form in the table decides; otherwise no form is more frequent, among those none is shorter, and among those none comes earlier |
| Canonical.KeptExact | internal/analytics/canonical.go:262-292 | More than one letter, all of one script, not all digits |
| Canonical.OccurrencesExact | internal/analytics/canonical.go:141-163 | What is counted: the kept tokens of all sentences of all documents, under the document's identifier or a stable one |
| Canonical.SameGroup | internal/analytics/canonical.go:207-215 | Which tokens share a group: one language, and one exception, stem or stripped form |
| Canonical.Inflections | internal/analytics/canonical.go:237-260 | The regular inflections of an English word of three letters or more lead back to the word |
| Canonical.DoubledAndOthers | internal/analytics/canonical.go:237-260 | A doubled consonant is single again; the table comes first; short words and other languages stay as they are |
| Canonical.MessagesInExact | internal/analytics/canonical.go:157-163 | The messages counted for a group are those in which one of its tokens occurs |
| Canonical.PreferredInGroup | internal/analytics/canonical.go:207-235 | A group's canonical form belongs to that very group, for every stemmer |
| Canonical.CanonicalDistinct | internal/analytics/canonical.go:207-235 | Different groups get different canonical forms |
| Canonical.ExtractCanonicalWords | internal/analytics/canonical.go:141-192 | Whatever order the maps are walked in, the result is an output for the kept tokens |
| Canonical.OutputUnique | internal/analytics/canonical.go:170-191 | There is only one such output: both sorts are total |
| Canonical.OutputOrder | internal/analytics/canonical.go:176-191 | More frequent words and forms come first, equally frequent ones by the alphabet |
| Ordering.LessExact | internal/analytics/canonical.go:180-190 | The order of strings is that of dictionaries: a proper prefix first, otherwise the first difference decides |
| Canonical.WordConserves | internal/analytics/canonical.go:164-175 | A word's frequency is the sum of its forms' and at least its message count |
| Canonical.OutputConserves | internal/analytics/canonical.go:141-192 | The frequencies add up to the number of kept tokens |
| Canonical.ProgramTable | internal/analytics/canonical.go:107-139 | The program's own exception table meets the condition the above needs |
| KeyBackup.EnvelopeRoundTrip | internal/licenseissuer/backup.go:40-128 | Exactly 64-byte keys under passwords of at least 12 runes are sealed, and they come back |
| KeyBackup.EnvelopeErrors | internal/licenseissuer/backup.go:40-50 | Which error a key that cannot be sealed gets |
| KeyBackup.OpenExact | internal/licenseissuer/backup.go:81-139 | An envelope opens if and only if it is written the one way it can be written and holds 64 bytes under the password; otherwise the error tells only an empty password |
| KeyBackup.CreateBackupV3 | cmd/license-generator/backup.go:31-66 | Assembling in a scratch buffer gives the specified text, and the buffer ends up zeroed |
| KeyBackup.RestoreBackupV3 | cmd/license-generator/backup.go:81-144 | The restore on its buffers gives the specified result; decrypted seed material is always zeroed; private keys and the copied seed key are handed over on success and zeroed on every error |
| KeyBackup.CreateBackupV2 | cmd/license-generator/backup.go:182-212 | The same for the second format's scratch buffer |
| KeyBackup.RestoreBackupV2 | cmd/license-generator/backup.go:220-255 | The second format on its buffers, with the same wiping |
| KeyBackup.AcceptedV3 | cmd/license-generator/backup.go:68-144 | Exactly which texts of the third format are accepted, and as what: three envelopes, canonically written, whose middle one holds identifier, seed key and the binding of all four parts |
| KeyBackup.AcceptedV2 | cmd/license-generator/backup.go:220-255 | Exactly which texts of the second format are accepted, and as what |
| KeyBackup.RestoreErrors | cmd/license-generator/backup.go:68-144 | A restore fails for one of two reasons |
| KeyBackup.CreateErrors | cmd/license-generator/backup.go:31-212 | Which error a refused creation gets, in both formats |
| KeyBackup.RoundTripV3 | cmd/license-generator/backup.go:31-144 | Creation succeeds if and only if the material is valid and the password long enough; restoring returns exactly what was packed |
| KeyBackup.RoundTripV2 | cmd/license-generator/backup.go:182-255 | The second format returns its two parts and no revocation key |
| KeyBackup.RoundTripV1 | cmd/license-generator/backup.go:68-79 | A bare envelope restores as one key |
| KeyBackup.DispatchExact | cmd/license-generator/backup.go:68-84 | For any text, a format's restore can succeed only where dispatch sends the text; the result has that format's shape |
| KeyBackup.SpliceExact | cmd/license-generator/backup.go:124-144 | Envelopes from three backups are accepted together if and only if the bindings coincide |
| KeyBackup.SpliceRejected | cmd/license-generator/backup.go:133-158 | Unless the digest collides on the two inputs, only an unspliced backup is accepted |
| KeyBackup.SpliceV2 | cmd/license-generator/backup.go:220-276 | In the second format a license envelope beside another backup's seed envelope is accepted if and only if the bindings coincide, and then only with the same license key unless the digest collides |
| KeyBackup.HexRoundTrip | cmd/license-generator/backup.go:45-48 | Lower-case identifiers survive decoding and encoding |
| KeyBackup.HexInverse | cmd/license-generator/backup.go:45-48 | Any bytes encode to lower-case text of twice the length and come back |

## Left out

- HTTP transports, the GitHub contents API, the credential store and the publisher behind them: network plumbing.
- Concrete cryptography, gzip, tar, JSON, DPAPI and base64 bytes: parameters or free constructors. Digests and keys are symbolic, hence free of collisions.
- SQLite queries on a displaced database: a verdict on the file's bytes, given as a parameter.
- The secret batch writer around the install: assumed to commit exactly when the install succeeds, and not part of the model.
- Reading a tree takes no time: the target classifier and each single fingerprint judge one snapshot, though the program walks entry by entry. Between two readings anything may happen.
- A foreign writer is limited to the target names and to descriptors opened through them; it does not enter the staging directory by name. It rewrites and unbinds trees but never destroys one, so "still exists" means that the import itself deletes none.
- SeedInstall.Import: the checks on the seed's names, on the configuration and on free disk space that come before staging are not part of a usable bundle here; a bundle is usable when both trees can be fingerprinted and their identities are new.
- Other processes that change the generator's signing store.
- BackupRestore.Generator.RestoreBackup: takes decryption and reconciliation as done; their records are opaque there.
- BundleImport.Root.Import: of an incomplete configuration only the blank version is modelled, not paths and credentials.
- BundleImport.Root.ReplaceDataAndMark: a crash inside it, with its backup directory left behind, is not modelled.
- Archive.ScanArchive: a destination on a case-insensitive file system, where two different names may meet, is not modelled; digest and trailing-data checks are folded into the stream being intact.
- ArchivePack.RoundTrip: a file that changes while it is packed is not modelled; how many bytes tar makes of an archive is a parameter.
- EncryptedStream.Writer.Close: an index that wraps past 64 bits is outside the round trip.
- Canonical.ExtractCanonicalWords: cutting texts into sentences and tokens is taken as done, and letters count as characters.
- KeyBackup.RoundTripV1: the first format is modelled on values; its one buffer is the envelope's.
- Closing the generator, issuing licenses, ranking by scores, polling helpers, views and translations: not part of this model.
