# WEFT OS: a verified model

A Dafny model of the protocols WEFT OS rests on, and proofs of what they keep.

- `Options`: a value that may be missing.
- `Streams`, `ComponentIpc`, `Relay`: newline-delimited messages between an app's page, weft-appd's relay and the component, for every way the bytes are cut and every cancelled read.
- `Names`, `Frames`, `AppdConnection`, `Reports`: length-prefixed frames with file descriptors between weft-appd and the compositor, in both directions. MessagePack is an opaque codec whose decoder undoes its encoder.
- `Store`: a package store as names, directories, locks and app data. Each system call is one step; launches step in between, and a crash may follow any step. `StoreOperations` is install, update, rollback, collection and uninstall over those steps: the schedule of launches and of failing calls is an input, so the results hold for all of them.
- `Inventory`: the text a package signature covers.
- `Owners`: the owner record of an app ID, with every file access a step.
- `Capabilities`, `SessionGrants` (in `Grants.dfy`), `RuntimeGrants`: from the capabilities a manifest declares to what the runtime is given.
- `Approvals`: the approval record and the launches it allows.
- `Sessions`, `SessionRuns`: weft-appd's session registry, and every interleaving of requests, dispatch and supervisors.
- `Windows`, `Keyboard`: stacking, focus and the keys the compositor keeps.

Code that updates fields step by step is a class whose methods are proved against functions of the state; the lemmas are about those functions. `dafny verify dfyconfig.toml` checks the project.

Where the code and its own comments or intentions part:

- The comment at crates/weft-appd/src/ws.rs:221-222 rules out altered payloads. A payload that ends in a carriage return is admitted and loses it in `take_line` (`Relay.ReturnIsLost`); every other admitted payload arrives unchanged (`Relay.PageToComponent`).
- `dispatch` launches a session and registers its stop sender under separate locks. A terminate request in between removes the session while its supervisor still starts, and clients then hear Stopping once a forced request (`SessionRuns.LostLaunch`). `SessionRuns.InOrderFromHere` gives the exact condition.
- Launches prepare app data without the owner lock, and `existing_app_data` looks at the current place before the earlier one. So an owner whose data is still in the earlier layout can lose it to another owner, without --claim-data, in two situations and no others: while the installation that made the record is still placing its package, and once an uninstall has decided to release the record with data still there, which no run from a state without a lock holder reaches (`Owners.OwnerLosesDataExactly`, `Owners.ExposedWhilePlacing`; `Owners.OwnerLostToAnother` is such a run, from the moment after a --claim-data installation made its record). The recorded owner of an ID nobody is operating on never changes hands while there is data (`Owners.OwnerKeepsWithData`); the same move between the looks of an uninstall only leaves the data without a recorded owner (`Owners.ReleaseLeavesDataExactly`).

## Model

| member | source | states |
|---|---|---|
| Store.ActKeeps | crates/weft-ipc-types/src/store.rs:124-154 | A step of a launch (open, shared lock, recheck), of a session ending or of preparing app data keeps the store invariant, every pin and all app data; data prepared or moved by a launch is there afterwards |
| Store.DataMovedKeeps | crates/weft-ipc-types/src/package.rs:176-211 | Moving app data out of a package directory moves it whole: the contents held before and after are the same |
| Store.OperationKeeps | crates/weft-ipc-types/src/store.rs:142-154 | A step of a package operation that touches only claimed launchable directories keeps the store invariant and every session; a claim needs a directory no session has locked |
| Store.CrashKeeps | crates/weft-ipc-types/src/store.rs:3-9 | A package operation cut short drops its locks, keeps the invariant and leaves the package a launch resolves to as it was |
| Store.RunKeeps | crates/weft-ipc-types/src/store.rs:3-16 | Over every run of launches, package operations and crashes, every state keeps the invariant and no app data is lost |
| Store.PinnedPackageStays | crates/weft-ipc-types/src/store.rs:13-16 | While a session holds its pin, the path it was launched from names the pinned directory with the content it had, whatever steps come between |
| Store.LaunchGetsPin | crates/weft-ipc-types/src/store.rs:124-140 | With anything of others between its steps, a launch that opened a directory ends with its pin exactly when nobody claimed the directory at its lock and the path still named it at its recheck; otherwise it is refused |
| Store.LockedStays | crates/weft-ipc-types/src/store.rs:142-154 | Over every run, a directory that sessions have locked all along keeps its path and its content |
| Store.LockedLaunchIsPinned | crates/weft-ipc-types/src/store.rs:124-140 | A launch that locks the directory its path still names, unclaimed, gets its pin whatever steps of others come before its recheck |
| Store.CutShort | crates/weft-pack/src/main.rs:639-647 | An operation cut short after any state and a later operation make one run, so the results about runs cover interruptions |
| Store.LinksAreWhole | crates/weft-ipc-types/src/store.rs:83-111 | In every state of every run the active link and the rollback link name revisions whose content digest is their name |
| Store.LinkedCareful | crates/weft-pack/src/main.rs:798-809 | Creating a temporary link leaves launches alone and the store well formed |
| Store.DroppedCareful | crates/weft-pack/src/main.rs:963-973 | Removing a name leaves launches alone when a launchable directory is claimed and no link names the revision |
| Store.MovedCareful | crates/weft-pack/src/main.rs:812-825 | A rename to an unused name, or of a link over a link to an intact revision, leaves launches alone and links whole |
| Store.ExchangedCareful | crates/weft-pack/src/main.rs:828-831 | Exchanging a claimed launchable directory with a link to an intact revision, or with the same content under another signature, leaves launches alone and links whole |
| Store.RewrittenCareful | crates/weft-pack/src/main.rs:963-973 | The files of a directory may change only while it is claimed or no launch can run from it, and no link names it |
| StoreOperations.Operation.TryClaim | crates/weft-ipc-types/src/store.rs:147-154 | A claim is granted only on a directory no session has locked; refused, it changes nothing |
| StoreOperations.Operation.RemoveTree | crates/weft-pack/src/main.rs:963-973 | Removing a tree changes only that directory and its name, whatever partial removal came before a failure |
| StoreOperations.Operation.RemoveClaimed | crates/weft-pack/src/main.rs:963-973 | A claimed directory leaves its name before it loses files; nothing else changes, and what a launch finds stays |
| StoreOperations.Operation.ReplacePrevious | crates/weft-pack/src/main.rs:812-825 | At every step the rollback link is the old one or the new one; a failure after the rename reports an error |
| StoreOperations.Operation.KeepCurrent | crates/weft-pack/src/main.rs:734-747 | The rollback link comes to name the active revision; without an active revision a stale rollback link goes |
| StoreOperations.Operation.RestoreKept | crates/weft-pack/src/main.rs:755-766 | After a failed switch the rollback link is what it was |
| StoreOperations.Operation.Switch | crates/weft-pack/src/main.rs:748-754 | One rename or exchange makes the new link the active one; a replaced package directory takes the temporary name |
| StoreOperations.Operation.Activate | crates/weft-pack/src/main.rs:728-780 | Stopped anywhere, a launch finds the package it found before or the new revision, and the revision active before is still linked; done, the links are the new and the earlier revision; failed once, the rollback link is what it was |
| StoreOperations.Operation.CollectRevision | crates/weft-pack/src/main.rs:914-922 | A revision no link names is removed under a claim, or spared because a session used it |
| StoreOperations.Operation.CollectRevisions | crates/weft-pack/src/main.rs:889-925 | Of the revisions, all but the linked ones and those spared for sessions are removed; the links and what remains are unchanged |
| StoreOperations.Operation.CollectTemporary | crates/weft-pack/src/main.rs:932-946 | Without faults a leftover temporary link is gone, and so is a leftover directory, unless it is not old enough or a session had it locked; links and revisions stay |
| StoreOperations.Operation.CollectTemporaries | crates/weft-pack/src/main.rs:926-948 | After the sweep of the revisions, and without faults, the temporary names left are directories that are not old enough or that a session had locked; links and revisions stay |
| StoreOperations.Operation.Collect | crates/weft-pack/src/main.rs:881-949 | Without faults the revisions left are exactly those the two links name and those a session was using, and the temporary names left are directories that are not old enough or that a session had locked; the choice a launch sees never changes |
| StoreOperations.UnchangedUseDecides | crates/weft-pack/src/main.rs:889-925 | A revision that sessions use throughout an operation with its collection, or not at all, is left exactly when a link names it or it is in use |
| StoreOperations.EndedUseIsCollected | crates/weft-pack/src/main.rs:914-922 | A revision whose only session ends before the collection comes to it can be removed, so use at some point does not keep it |
| StoreOperations.KeepNamed | crates/weft-pack/src/main.rs:865-888 | What collection keeps is exactly what the active and rollback links name |
| StoreOperations.Operation.Rollback | crates/weft-pack/src/main.rs:980-1012 | A successful rollback exchanges the active and the kept revision, and without faults leaves exactly the revisions of the two links and those collection found in use; it succeeds when there is an owned earlier revision and no fault; stopped anywhere, a launch finds one of the two |
| StoreOperations.Operation.RollbackTwice | crates/weft-pack/src/main.rs:980-1012 | Two successful rollbacks in a row, collections included, restore the active and the kept revision |
| StoreOperations.Operation.ReuseOrReplace | crates/weft-pack/src/main.rs:670-697 | A revision of the same content and signature is reused; anything else under its name is exchanged in one step under a claim, and without faults only a lock on it prevents that; the name then holds the staged content |
| StoreOperations.Operation.PutRevision | crates/weft-pack/src/main.rs:662-704 | The staged package is under the name of its digest, signature included, or nothing a launch finds has changed |
| StoreOperations.Operation.Place | crates/weft-pack/src/main.rs:655-719 | Stopped anywhere, a launch finds the package from before or the new revision, and the earlier revision stays linked; a failed first placing with one fault leaves neither revision nor staging copy; without faults it fails only when another package under the same revision name is in use |
| StoreOperations.Operation.CleanUp | crates/weft-pack/src/main.rs:710-714 | A failed installation removes its staging copy and the revision it created, under the claim it still holds |
| StoreOperations.Operation.MoveDataOut | crates/weft-ipc-types/src/package.rs:176-219 | The move replaces no data that exists and succeeds only when the data left the package directory |
| StoreOperations.Operation.KeepLegacyData | crates/weft-pack/src/main.rs:1159-1172 | A package directory is ready to go only without app data in it; otherwise it stays, or was empty and is gone; without faults it is not ready only for data that may not be moved or has no room |
| StoreOperations.Operation.MigrateAppData | crates/weft-ipc-types/src/package.rs:176-211 | Data is taken out whole or stays, an emptied directory goes with it, and without faults it stays only if there is data in its place |
| StoreOperations.Operation.ClearLegacy | crates/weft-pack/src/main.rs:457-470 | The entry is ready to be replaced: a package directory is claimed and cleared of data, and kept claimed unless it is gone |
| StoreOperations.Operation.ClaimCleared | crates/weft-pack/src/main.rs:457-470 | Without faults a package directory cannot be cleared only for a session or for data that may not be moved |
| StoreOperations.Operation.InstallStaged | crates/weft-pack/src/main.rs:434-480 | An installation, collection included, ends with the staged package active or with the package from before, and every step on the way resolves to one of the two; without faults success leaves exactly the revisions of the two links and those collection found in use, and of the temporary names only directories that are not old enough or were locked; admitted and without faults it fails only for an unusable entry, a session in the way or data that may not be moved |
| StoreOperations.Operation.Install | crates/weft-pack/src/main.rs:397-429 | The same from the checked package on, with the same reasons to fail; an earlier active revision is kept, and without one nothing is; no app data is lost and no lock left |
| StoreOperations.Operation.UninstallRevision | crates/weft-pack/src/main.rs:1122-1132 | Without faults both links go and only revisions a session was using remain |
| StoreOperations.Operation.UninstallDirectory | crates/weft-pack/src/main.rs:1176-1194 | A package directory that is removed was claimed and has no app data in it; without faults it stays only for a session or for data that may not be moved |
| StoreOperations.Operation.Uninstall | crates/weft-pack/src/main.rs:1085-1134 | Uninstalling ends without an entry for the app, keeps revisions in use, loses no app data and leaves no lock; without faults it fails only when nothing usable is installed, or for a session in or data of a package directory |
| Inventory.Collect | crates/weft-ipc-types/src/trust.rs:95-126 | Reading a directory appends exactly its files, in listing order, or reports the first problem met |
| Inventory.Read | crates/weft-ipc-types/src/trust.rs:68-73 | The inventory is the sorted files of the package |
| Inventory.DigestText | crates/weft-ipc-types/src/trust.rs:76-85 | The text hashed is one path, tab, hexadecimal hash and line break an entry |
| Inventory.FilesLocated | crates/weft-ipc-types/src/trust.rs:95-126 | The collected entries are exactly the files of the tree, each once, under the path of its components, the root signature aside |
| Inventory.InventoryHolds | crates/weft-ipc-types/src/trust.rs:89-92 | The inventory holds a path with a hash exactly when the package has a file with that hash there, the root signature aside |
| Inventory.OneOrder | crates/weft-ipc-types/src/trust.rs:68-73 | Sorted inventories with the same entries are equal |
| Inventory.TextDeterminesEntries | crates/weft-ipc-types/src/trust.rs:76-85 | The inventory text determines its entries |
| Inventory.TextDeterminesPackage | crates/weft-ipc-types/src/trust.rs:4-10 | Two packages give the same text exactly if they hold the same files with the same hashes at the same paths, the root signature aside |
| Inventory.AcceptedExactly | crates/weft-ipc-types/src/trust.rs:95-126 | A package is accepted exactly when no name is undecodable or holds a control character and everything is a directory or a regular file |
| Inventory.OrderDoesNotMatter | crates/weft-ipc-types/src/trust.rs:68-73 | The order of directory listings changes neither acceptance nor the inventory text |
| Owners.OwnerKeepsWithData | crates/weft-pack/src/main.rs:1019-1078 | With each file access a step: from a state in which nobody holds the owner lock, the recorded owner never becomes another while there is data in either layout and no --claim-data installation, whatever launches move in between |
| Owners.OwnerLosesDataExactly | crates/weft-pack/src/main.rs:710-717 | With data there, a recorded owner can lose it to another without --claim-data exactly while data is in the earlier layout and either the installation that made the record is still placing its package or an uninstall has decided to release it |
| Owners.ExposedWhilePlacing | crates/weft-pack/src/main.rs:1218-1228 | From a state in which no uninstall is about to release an ID with data in the earlier layout, only the placing of the installation that made the record exposes its owner |
| Owners.OwnerChangesOnlyWithoutData | crates/weft-appd/src/launch.rs:233-276 | From any state, also those: the owner changes only without data or by --claim-data as long as no launch moves data between the two looks of a check |
| Owners.StaysGuarded | crates/weft-appd/src/launch.rs:233-276 | While there is data and none is moved under it, no installation or first launch gets past both looks for it |
| Owners.PreparedUnderLock | crates/weft-appd/src/grants.rs:157-188 | Launches that prepare data only while nobody holds the owner lock never move it under a check |
| Owners.MoveGivesDataAway | crates/weft-ipc-types/src/package.rs:92-113 | In every state where a check has looked at the current place and the data is in the earlier one, a move there and then gives the ID away with its data |
| Owners.OwnerLostToAnother | crates/weft-pack/src/main.rs:1051-1054 | A run that starts after a --claim-data installation has made its record and before its package is placed: the placing fails, and another owner gets the ID with its data |
| Owners.ReleasedOnlyByMove | crates/weft-pack/src/main.rs:1218-1228 | While there is data, a record that was there before an operation goes only if a launch moves the data between the two looks of an uninstall |
| Owners.ReleaseLeavesDataExactly | crates/weft-pack/src/main.rs:1218-1228 | An uninstall releases an ID that has data all along exactly when its first look finds none and a launch moves the data before the second |
| Owners.OwnerRecord.ExistingAppData | crates/weft-ipc-types/src/package.rs:92-113 | Looking for app data takes two looks with anything in between; finding none leads on to the write or the release |
| Owners.OwnerRecord.Admit | crates/weft-pack/src/main.rs:1019-1078 | The recorded owner is admitted and nobody else; an ID without a record goes to whoever asks, unless data was there meanwhile and is not claimed; every access is a step of the runs |
| Owners.OwnerRecord.PlacePackage | crates/weft-pack/src/main.rs:710-717 | A failed placing removes the record made for it and no other |
| Owners.OwnerRecord.RecordFirstOwner | crates/weft-appd/src/launch.rs:233-276 | A first launch goes ahead exactly when its signer is the recorded owner, or there is no record and it makes one; it fails without a record only if data was there meanwhile |
| Owners.OwnerRecord.ReleaseOwnerWithoutData | crates/weft-pack/src/main.rs:1218-1228 | A release removes the record that was there; meanwhile there was a state without data, or a launch moved data between the looks; otherwise the record stays, which happens only if data was there meanwhile |
| Approvals.WrittenIsRead | crates/weft-ipc-types/src/approval.rs:40-91 | The capabilities written to an approval record are those read from it |
| Approvals.ApprovalRecord.WriteApproved | crates/weft-ipc-types/src/approval.rs:56-91 | The record holds exactly the capabilities that need approval; with none there is no record |
| Approvals.ApprovalRecord.SettleApproval | crates/weft-pack/src/main.rs:488-537 | With approval the declared capabilities that need it are recorded; without, what is no longer declared is dropped, and what needs approval is reported |
| Approvals.ApprovedIsDeclared | crates/weft-pack/src/main.rs:488-594 | After every completed operation only capabilities that need approval and that the active package declares are approved |
| Approvals.NotApprovedByItself | crates/weft-pack/src/main.rs:543-594 | A capability not approved stays so until an operation approves it |
| Approvals.ApprovedStays | crates/weft-pack/src/main.rs:488-594 | An approved capability stays approved over every run until a version that does not declare it, or an uninstallation, drops it |
| Approvals.ApprovedByName | crates/weft-pack/src/main.rs:557-585 | Approving by name adds exactly the named capabilities if the active package declares them all and all need approval, and otherwise changes nothing |
| Approvals.SettledExactly | crates/weft-pack/src/main.rs:488-537 | Without approval exactly the approved capabilities still declared stay; with approval exactly the declared ones that need it are approved |
| Approvals.NeedsApprovalExactly | crates/weft-ipc-types/src/approval.rs:24-28 | Every capability of the vocabulary needs approval but the two for private data |
| Approvals.AllowedExactly | crates/weft-ipc-types/src/approval.rs:31-37 | A launch goes ahead exactly when every declared capability that needs approval is approved |
| Approvals.DroppedIsAskedAgain | crates/weft-appd/src/main.rs:706-728 | A capability an update, rollback or uninstallation drops, declared again later, blocks the launch until it is approved anew |
| Approvals.ApprovedLaunches | crates/weft-pack/src/main.rs:587-593 | Approving what the installed package declares lets it launch |
| Approvals.InstalledWithApprovalLaunches | crates/weft-pack/src/main.rs:488-537 | A package installed with approval may be launched, whatever was approved before |
| Capabilities.ParseDisplay | crates/weft-ipc-types/src/capability.rs:60-102 | Every capability is written as text that is read as that capability |
| Capabilities.DisplayParse | crates/weft-ipc-types/src/capability.rs:60-102 | Text that names a capability is exactly how that capability is written |
| Capabilities.DirTexts | crates/weft-ipc-types/src/capability.rs:60-102 | The four texts for directories name private data and documents, each to read or to write |
| Capabilities.ImportTexts | crates/weft-ipc-types/src/capability.rs:60-102 | The five texts for imports name notifications, the two clipboard directions, computing and rendering |
| Capabilities.FetchTexts | crates/weft-ipc-types/src/capability.rs:60-102 | A star is any host, and a host name after the prefix is that host |
| Capabilities.HostCharacters | crates/weft-ipc-types/src/capability.rs:104-144 | A host name is not empty and holds only lowercase letters, digits, hyphens and dots |
| Capabilities.NamesAreHosts | crates/weft-ipc-types/src/capability.rs:104-144 | Labels around dots, the last no number, are a host name exactly when they are not too long together |
| Capabilities.AddressesAreHosts | crates/weft-ipc-types/src/capability.rs:104-144 | Every dotted decimal address is a host name |
| Capabilities.CapabilityCharacters | crates/weft-ipc-types/src/capability.rs:60-102 | The text of a capability holds no space, control character or line break |
| SessionGrants.Validate | crates/weft-appd/src/grants.rs:92-110 | Validation passes exactly the lists of supported capabilities, parsed in order; everything else is refused with 403 |
| SessionGrants.SupportedExactly | crates/weft-appd/src/grants.rs:92-110 | This host supports the whole vocabulary but computing and rendering on the GPU |
| SessionGrants.GrantedExactly | crates/weft-appd/src/grants.rs:193-218 | One more capability is granted exactly when the host has what it needs, and the grants stay those of the capabilities |
| SessionGrants.Derive | crates/weft-appd/src/grants.rs:114-151 | A session is refused exactly when a capability is unsupported, its directory is not to be had or the data directory cannot be prepared; otherwise its grants are exactly those of the declared capabilities |
| RuntimeGrants.PreopenRoundTrip | crates/weft-runtime/src/grants.rs:105-128 | A preopen argument reads back as its directory, for every host path, also one holding :: or ending in a colon |
| RuntimeGrants.Grants.Add | crates/weft-runtime/src/grants.rs:26-35 | A grant argument opens exactly its import; others are refused and change nothing |
| RuntimeGrants.ParseArguments | crates/weft-runtime/src/main.rs:43-88 | The argument loop accepts what its specification accepts |
| RuntimeGrants.CommandAccepted | crates/weft-appd/src/runtime.rs:370-380 | weft-runtime accepts every argument weft-appd builds and holds all of it |
| RuntimeGrants.RuntimeHoldsWhatIsDeclared | crates/weft-runtime/src/grants.rs:26-78 | A runtime given grants exactly as declared holds exactly the declared preopens and imports, and reaches a host exactly when a declaration covers it, an address as declared only when one names it |
| RuntimeGrants.BuildArguments | crates/weft-appd/src/runtime.rs:370-380 | The command line built in a loop over directories and imports is the specified one |
| RuntimeGrants.StartRuntime | crates/weft-appd/src/grants.rs:92-151 | From manifest to runtime in one statement: refused exactly when the capabilities cannot be granted, otherwise the runtime has read preopens, imports and reach exactly as declared, read-write exactly when some declaration of the directory is |
| RuntimeGrants.OrderAndRepeatsDoNotMatter | crates/weft-appd/src/grants.rs:114-151 | Order and repeats of declarations change neither whether the session starts nor what its runtime holds |
| Sessions.SessionRegistry.PruneStopped | crates/weft-appd/src/main.rs:81-95 | Exactly the stopped sessions with KEPT_STOPPED later stopped ones are forgotten |
| Sessions.PrunedKeepsNewest | crates/weft-appd/src/main.rs:81-95 | Pruning forgets stopped sessions only, each older than every stopped one it leaves, and leaves KEPT_STOPPED of them or all if there are no more |
| Sessions.SessionRegistry.Launch | crates/weft-appd/src/main.rs:58-77 | A launch takes the next ID, starting, after pruning |
| Sessions.SessionRegistry.Terminate | crates/weft-appd/src/main.rs:117-148 | The new registry and the reported state of a close or forced request in every state |
| Sessions.LaterOnes | crates/weft-appd/src/main.rs:81-95 | In ascending order, a stopped session has as many later stopped ones as follow it |
| SessionRuns.OwnStep | crates/weft-appd/src/runtime.rs:307-538 | Every event keeps what holds of the session it is about, never takes its state back, and loses no forced stop |
| SessionRuns.OthersStay | crates/weft-appd/src/main.rs:512-614 | An event about another session changes nothing of this one |
| SessionRuns.StateOnlyAdvances | crates/weft-appd/src/main.rs:58-148 | Over every run a session goes only from Starting to Running to Stopping to Stopped to forgotten, and a forced stop asked for stays asked for |
| SessionRuns.IdsAreNew | crates/weft-appd/src/main.rs:58-77 | After any events a launch starts a session under an ID no earlier session had |
| SessionRuns.BroadcastsInOrder | crates/weft-appd/src/runtime.rs:718-756 | A session no terminate request strikes between launch and registration is broadcast as at most one AppReady, then at most one Stopping, then one Stopped exactly when its supervisor is done |
| SessionRuns.EveryRunInOrder | crates/weft-appd/src/main.rs:43-54 | Every run from the empty registry keeps the invariant, and the broadcasts of every session not struck in the gap in order |
| SessionRuns.InOrderFromHere | crates/weft-appd/src/main.rs:551-553 | Once the stop sender is registered, the broadcasts stay in order whatever follows exactly if the session is still in the registry |
| SessionRuns.LostLaunch | crates/weft-appd/src/main.rs:551-614 | A run in which a terminate request comes between launch and registration, and a client hears Stopping twice |
| SessionRuns.NothingLeftBehind | crates/weft-appd/src/runtime.rs:603-617 | However a supervisor ends, no stop sender and no IPC sender is left for the session |
| SessionRuns.ForceIsQueued | crates/weft-appd/src/main.rs:127-137 | After a forced request on a supervised session the queue holds a Force |
| SessionRuns.ForceSettles | crates/weft-appd/src/runtime.rs:501-536 | Taking what is queued settles a session with a Force queued, whether starting, running or closing |
| SessionRuns.ForcedIsNotPresented | crates/weft-appd/src/runtime.rs:481-495 | A session with a Force queued is settled instead of becoming Running |
| SessionRuns.CloseIsQueued | crates/weft-appd/src/main.rs:127-137 | After a close request on a supervised session that is not stopping the queue is not empty: exactly the Close if it was empty, and else as it was; a running session stays running, any other is stopping and broadcast so |
| SessionRuns.UnsupervisedIsForgotten | crates/weft-appd/src/main.rs:138-148 | A terminate request on a session without a supervisor forgets it, and one on an unknown session changes nothing |
| SessionRuns.CloseIsTaken | crates/weft-appd/src/runtime.rs:511-525 | A Close taken while running goes to closing if the application could be asked and to settling otherwise; while closing it is ignored, and before readiness it ends the startup |
| SessionRuns.ReadyLaunchRuns | crates/weft-appd/src/runtime.rs:307-495 | From any reachable state, a launch whose processes become ready ends Running, broadcast as ready once, with both senders registered |
| SessionRuns.ServingGoesOnOrEnds | crates/weft-appd/src/runtime.rs:501-538 | A running application that declines a close goes on; one that ends is settled, stopped and broadcast so |
| SessionRuns.UnstartedIsStopped | crates/weft-appd/src/runtime.rs:603-617 | A session that starts nothing ends Stopped and is broadcast so, whichever way it got there |
| SessionRuns.Appd.TerminateRequest | crates/weft-appd/src/main.rs:589-614 | A terminate request changes the registry and broadcasts Stopping as its step in the runs says |
| SessionRuns.Appd.CheckReady | crates/weft-appd/src/runtime.rs:481-494 | A ready session runs and is broadcast, unless it is stopping or a stop is queued |
| SessionRuns.Appd.OnStop | crates/weft-appd/src/runtime.rs:501-528 | Any request ends a startup; a Close asks a running app if it can and is ignored while closing; a Force settles |
| SessionRuns.Appd.StartSettling | crates/weft-appd/src/runtime.rs:718-731 | Settling reports Stopping unless it was reported |
| SessionRuns.Appd.FinishSettling | crates/weft-appd/src/runtime.rs:746-756 | Settling ends with the session stopped, both senders gone and Stopped broadcast |
| SessionRuns.Appd.GiveUpUnstarted | crates/weft-appd/src/runtime.rs:603-617 | A session that started nothing is stopped, its stop sender gone and Stopped broadcast |
| ComponentIpc.CheckPayload | crates/weft-runtime/src/ipc.rs:25-33 | A payload is accepted exactly when it fits one line of the protocol unchanged |
| ComponentIpc.IpcState.Send | crates/weft-runtime/src/ipc.rs:70-90 | A message is written whole with its line break, or the connection is closed |
| ComponentIpc.IpcState.TakeLine | crates/weft-runtime/src/ipc.rs:145-160 | The first complete line is removed and returned without its break, dropped if not UTF-8, or ends the connection if too long |
| ComponentIpc.IpcState.Recv | crates/weft-runtime/src/ipc.rs:95-130 | The next message is returned or none has arrived; the buffer never exceeds the limit, and nothing returned is lost or repeated |
| ComponentIpc.IpcState.EverythingReceived | crates/weft-runtime/src/ipc.rs:95-160 | Once the connection ended or everything was read, no message is missing |
| ComponentIpc.ReceiveAll | crates/weft-runtime/src/ipc.rs:95-160 | For every cut of the stream into reads, successive calls return exactly the UTF-8 lines before the first over-limit line, also those buffered at hangup |
| Relay.IpcRelay.ReadUntil | crates/weft-appd/src/runtime.rs:76-97 | Reads at most one byte over the limit, never a negative size, and a cancelled read keeps what it read |
| Relay.IpcRelay.TakeFill | crates/weft-appd/src/runtime.rs:80-97 | A fill takes what it brings, as far as there is that much and room for it, up to and including the first line break |
| Relay.IpcRelay.Run | crates/weft-appd/src/runtime.rs:75-118 | Over every schedule the relay broadcasts the lines read, in order, and forwards the messages of the page; while it runs every fill takes bytes until none are left, and only the component or the end of the session stops it |
| Relay.ComponentToPage | crates/weft-appd/src/runtime.rs:80-103 | Wherever the stream of sendable messages is cut, the messages before the cut are broadcast and the relay stays open |
| Relay.RelayComponent | crates/weft-appd/src/runtime.rs:75-118 | Whatever the fills and cancelled reads, the relay broadcasts the component's messages in order, and all of them once it has run through as many fills as the stream has bytes |
| Relay.PageToComponent | crates/weft-appd/src/ws.rs:213-249 | Every queued payload arrives, less one carriage return at its end: unchanged exactly when none ends in one |
| Relay.ReturnIsLost | crates/weft-appd/src/ws.rs:221-231 | An admitted payload that the component does not receive as it was sent |
| Relay.DeliverToComponent | crates/weft-runtime/src/ipc.rs:95-160 | However the relay's bytes are cut into reads, the component receives the queued payloads, less one carriage return at the end |
| Frames.FrameRoundTrip | crates/weft-ipc-types/src/lib.rs:52-88 | Decoding an encoded frame gives the message |
| Frames.DecodeAppend | crates/weft-compositor/src/appd_ipc.rs:173-202 | A stream decodes the same wherever it is cut |
| Frames.DecodeFrame | crates/weft-compositor/src/appd_ipc.rs:173-202 | A frame at the front of a stream is its first message |
| Frames.DecodePiece | crates/weft-compositor/src/appd_ipc.rs:173-202 | A piece of a frame waits for the rest |
| AppdConnection.HonestPrefix | crates/weft-compositor/src/appd_ipc.rs:173-252 | However much of an honest stream has arrived, it decodes to the first of the messages sent, with their descriptors and at most one more |
| AppdConnection.WeftAppdIpc.TryDecodeFrames | crates/weft-compositor/src/appd_ipc.rs:173-202 | Whole frames are taken off the buffer in order, and a broken stream is reported |
| AppdConnection.WeftAppdIpc.OnRead | crates/weft-compositor/src/appd_ipc.rs:207-252 | What is read decodes as the whole stream does, and descriptors are kept in order of arrival |
| AppdConnection.WeftAppdIpc.AttachClient | crates/weft-compositor/src/appd_ipc.rs:308-350 | An attachment claims the first descriptor, whether or not it becomes a client |
| AppdConnection.SessionsStep | crates/weft-compositor/src/appd_ipc.rs:269-350 | One more message keeps it so that a session has the client of the first valid attachment since it was last destroyed, and none without one |
| AppdConnection.WeftAppdIpc.Serve | crates/weft-compositor/src/appd_ipc.rs:207-350 | For every cut of an honest stream the messages are handled in order, the k-th attachment gets the k-th descriptor, every session has the client of its first valid attachment since it was last destroyed, at most one descriptor is left, and the connection is never judged broken |
| AppdConnection.FramePiece | crates/weft-appd/src/compositor_client.rs:136-171 | The descriptor travels with the first byte of its frame |
| AppdConnection.RunClient | crates/weft-appd/src/compositor_client.rs:74-132 | Over all connections every queued message is written whole once, in order, a failed one again on the next connection |
| AppdConnection.LinkDecodes | crates/weft-appd/src/compositor_client.rs:74-132 | The compositor decodes exactly the frames a connection carried whole |
| Reports.WrittenDecodes | crates/weft-compositor/src/appd_ipc.rs:97-129 | However much of the reports was written, it decodes to the first of them, and all of it to all of them |
| Reports.AppdReports.Flush | crates/weft-compositor/src/appd_ipc.rs:97-129 | What the socket took and what waits are together the frames sent; only a failed write or a backlog over the limit ends the connection, and a socket that keeps taking bytes takes all |
| Reports.AppdReports.Send | crates/weft-compositor/src/appd_ipc.rs:81-92 | A report is queued whole behind those before it while there is a connection |
| Reports.AppdReports.SurfaceCreated | crates/weft-compositor/src/appd_ipc.rs:164-168 | A session is reported ready once while its client is attached |
| Reports.AppdReports.Disconnected | crates/weft-compositor/src/appd_ipc.rs:398-412 | A client that goes away is reported once, and may be reported ready again |
| Reports.AppdReports.AppdHasDecoded | crates/weft-compositor/src/appd_ipc.rs:97-129 | weft-appd has decoded the first of the reports sent, in order, and all of them once nothing waits |
| Names.ValidIdIsSafe | crates/weft-ipc-types/src/package.rs:10-18 | A valid app ID is one path component of lowercase letters, digits and dots, and never a reserved one |
| Names.ValidIdExactly | crates/weft-ipc-types/src/package.rs:10-18 | Parts joined by dots are a valid ID exactly when there are three or more, each a lowercase letter and then letters or digits |
| Windows.OrderPermutes | crates/weft-compositor/src/windows.rs:169-209 | The computed order holds the same windows |
| Windows.LoweringIsStable | crates/weft-compositor/src/windows.rs:169-209 | Lowering puts every panel beneath every application and keeps the order among each |
| Windows.NewWindowBelowTop | crates/weft-compositor/src/windows.rs:169-209 | A new window that takes no focus goes right under the top, which stays on top; a relayout alone moves nothing |
| Windows.WeftCompositorState.MapAll | crates/weft-compositor/src/windows.rs:192-209 | Mapping every window in the given order ends with that order |
| Windows.WeftCompositorState.PlaceWindows | crates/weft-compositor/src/windows.rs:169-209 | The stack becomes the computed order |
| Windows.WeftCompositorState.FitPanels | crates/weft-compositor/src/windows.rs:145-162 | Panels go beneath, and a focused panel under an application gives focus to it |
| Windows.WeftCompositorState.MapNewWindow | crates/weft-compositor/src/windows.rs:218-241 | A new window is stacked and focused as the events say |
| Windows.WeftCompositorState.WindowClosed | crates/weft-compositor/src/windows.rs:245-278 | A closed window leaves the stack, and focus goes to the topmost application, else to a panel, else to nobody |
| Windows.WeftCompositorState.Handle | crates/weft-compositor/src/state.rs:277-294 | Every event of a client, the user or weft-appd has its specified effect on stack, focus, panels and sessions |
| Windows.NextKeeps | crates/weft-compositor/src/windows.rs:145-278 | Every event keeps keyboard focus on the topmost window or nobody, with at most one panel window |
| Windows.FocusStaysOnTop | crates/weft-compositor/src/windows.rs:49-59 | Over every run, keyboard focus is nobody's or the topmost window's |
| Windows.MappingFocus | crates/weft-compositor/src/windows.rs:218-241 | Mapping a window that is no panel gains focus for its session exactly when the session is attached and has not had that before; otherwise focus stays |
| Windows.FocusOncePerAttachment | crates/weft-compositor/src/appd_ipc.rs:159-161 | A session gains focus by mapping at most once while it stays attached |
| Windows.AfterClick | crates/weft-compositor/src/input.rs:205-221 | A click brings the window under it to the front with the keyboard; anywhere else it takes the keyboard from everything |
| Windows.AfterActivateSession | crates/weft-compositor/src/windows.rs:127-142 | Activating a session brings its topmost window to the front with the keyboard and keeps the order of the others; without a window it changes nothing |
| Windows.AfterActivatePanel | crates/weft-compositor/src/windows.rs:63-84 | Activating the panel brings the window of the first panel that has one to the front |
| Windows.AfterClose | crates/weft-compositor/src/windows.rs:245-278 | A closed window is gone; if it had the keyboard, or nothing had, the topmost application gets it, else the lowest window, else nobody |
| Windows.AfterMap | crates/weft-compositor/src/windows.rs:218-241 | A new window that takes the keyboard is in front, one that does not is right under the window in front, and one of a panel is at the bottom |
| Windows.AfterRegister | crates/weft-compositor/src/state.rs:514-592 | A registered panel goes beneath every application, both orders kept, and hands the keyboard to the application now in front |
| Windows.AfterRemovePanel | crates/weft-compositor/src/state.rs:664-680 | A panel that goes away is forgotten, and its window closed; a resource that was no panel changes nothing |
| Windows.AfterConnections | crates/weft-compositor/src/appd_ipc.rs:256-350 | Sessions attached, destroyed or lost with weft-appd move no window and no focus, and a session registers no panel |
| Keyboard.KeyFilter.InterceptKey | crates/weft-compositor/src/input.rs:72-105 | Each key is forwarded or taken, with the suppressed keys and the pending tap updated, as specified |
| Keyboard.KeyFilter.Process | crates/weft-compositor/src/input.rs:106-137 | Over a run of events clients receive the forwarded keys, and the tap when the shell is shown |
| Keyboard.KeyboardAlternates | crates/weft-compositor/src/input.rs:72-137 | Keys that alternate press and release as typed alternate as clients receive them, injected taps included |
| Keyboard.TakenExactly | crates/weft-compositor/src/input.rs:77-103 | A key event is taken exactly when it is a reserved press or the release of one |
| Keyboard.ReleaseFollowsPress | crates/weft-compositor/src/input.rs:77-103 | A release is withheld exactly when its press was |
| Keyboard.ShellShownExactly | crates/weft-compositor/src/input.rs:84-98 | The shell is shown exactly when a plain Super press meets its release with no other press, click, touch or withheld release between |
| Keyboard.ReceivedExactly | crates/weft-compositor/src/input.rs:72-137 | Clients receive the typed keys that are not taken, in order, with press and release of a Super key exactly where it shows the shell |
| Keyboard.ClosesExactly | crates/weft-compositor/src/input.rs:72-105 | The focused window is asked to close exactly at a press of F4 with Alt |

## Left out

- Stores: foreign operations. Collections of other apps, which may remove abandoned staging and trash directories, and launches of a package of the same ID from another store are not steps; the latter's removal of an emptied package directory is not modelled, its move of app data is.
- Stores: several stores, verified images and the mount helper; reads of the store do not fail; random temporary names never collide; removing an empty revisions directory; file modes and flushing to disk, of which only the failure is modelled.
- StoreOperations.Operation.Rollback: the check of the owner record is a parameter, and losing the rollback target when a rollback is interrupted between its two link writes is not excluded, as the code promises only to keep the active revision.
- StoreOperations.Operation.RemoveTree: a partial removal is one arbitrary change of the directory's files, not a sequence of them.
- StoreOperations.Operation.Install: copying a package and claiming the copy are one step, since no launch can reach a staging directory; checking the package's contents is left out.
- Owners.OwnerChangesOnlyWithoutData: whether the ID is installed in another store is left out, so an uninstall may release the record whenever there is no data.
- Inventory.TextDeterminesPackage: file contents are represented by their hashes; names are assumed not empty, without '/' and distinct in one directory, as file systems guarantee; SHA-256 of the text is not modelled.
- Signatures, trust stores and `verify_owner`: Ed25519, and the decision table of a launch, are readable one branch at a time.
- `resolve_in`: the search over several stores.
- Approvals.ApprovedIsDeclared: one store, no verified images; operations that fail between placing a package and settling its approval are not steps.
- RuntimeGrants.RuntimeHoldsWhatIsDeclared: host directories are absolute paths; how weft-appd finds the documents directory is left out.
- RuntimeGrants.ParseArguments: the value of a memory limit is checked and kept as text.
- Sessions.SessionRegistry.Launch: bridge tokens, app IDs and the compositor channel of the registry are left out, as is `shutdown_all`.
- SessionRuns.BroadcastsInOrder: children, timeouts and the compositor are events that may happen at any time; lagging receivers of a broadcast and liveness of a supervisor are left out.
- ComponentIpc.IpcState.Recv: real time and the thread that waits for a hangup are left out.
- AppdConnection.WeftAppdIpc.Serve: the effects of focus and close requests on windows are in `Windows`; ending sessions when the connection is lost is left out.
- Reports.AppdReports.Flush: the retry timer is any later call with further attempts.
- Windows.FocusStaysOnTop: sizes, positions, reserved zones and pending configures are left out; Smithay's `Space` is a duplicate-free sequence in which mapping or raising moves a window to the end.
- Keyboard.ShellShownExactly: modifier state and key symbols come with each event; closing the focused window on Alt+F4 is left out.
- Rendering, DRM, pointer and gesture forwarding, Servo, Wasmtime, HTTP, seccomp, clipboard, notifications, the file portal and the demo apps: plumbing into libraries and the kernel.
