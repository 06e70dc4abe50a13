# Porcelain: models and proofs of its stateful cores

Porcelain is a web console over host tools. Four small parts of it keep state whose correctness is a matter of whole
runs, not of single calls; this project models them in Dafny and proves what they promise. `dafny verify
dfyconfig.toml` checks everything.

* **Certificates.** `CertificateSteps` is the self-signed store and the TLS manager as a step system: any number of
  `Issue`, `GetCertificate`, start-up and renewal calls, cut at every store access, interleaved at will, each access
  working, failing or breaking off. `TlsManagement` is the same calls as code, each shown to do exactly the steps of
  its call, and proves start-up recovery. `FilesystemStore` is the store that reloads a directory. `KeyPairs` abstracts
  cryptography: issue `i` makes certificate `i` and key `i`, and only these match.
* **Secrets.** `SecretHeap` is the in-memory store as a class on the heap: which buffers the store, its channels and
  its callers share, and `SecretClient` anything its callers may do with it and with what it hands out. `WatchProtocol`
  is its fan-out to watchers as a step system.
* **ZFS tasks and their event stream.** `TaskLog` is the capped tracker against an unbounded log, `TaskAccounting` the
  five operations as scripts over it, `TaskLock` the mutex that `RecentTasks` takes. `EventStream` is the writer of
  server-sent events, in bytes, against the reader of sections 9.2.5 and 9.2.6 of the WHATWG HTML Living Standard and
  the decoder (`Utf8`) of section 8.1.1 of the WHATWG Encoding Standard, `EventPage` the page fragment the stream
  carries, `ScrubStatus` the parser of `zpool status`.
* **Sensors.** `SensorHistory` has the bounded, persisted history and thresholds, and the unbounded in-memory log they
  refine; `SensorModule` is the module as code.

`Text` and `Decimal` are the string and number functions these need, `ByteSizes` is `humanizeBytes`, `Wrappers` holds
small shared types.

## What came out false

* A reader of certificates never mixes two issues (`ReaderNeverMixes`), but two overlapping `Issue`s of one name that
  both succeed can leave a certificate with the other's key, which nobody can load (`OverlapTears`). Overlap is exactly
  what does it among calls whose Puts work: without it the newest pair is always in place (`OrderNeverTears`), and
  from any overlap some continuation without a failure tears (`OverlapCanTear`).
* Start-up recovers from any store contents if and only if the stored pair loads or `Issue` writes under the name that
  is read (`StartupRecovery`): an empty certificate name with a non-empty default name never starts (`NamelessStart`,
  and in every interleaving `NamelessNeverStarts`), while every other start whose steps work recovers among other calls
  too, as long as none of them writes its name (`StartRecovers`).
* The comment above `reload` (`porcelain/internal/secrets/filesystem.go:99-100`) says the directory is re-read under
  the write lock. The code reads the files before it takes the lock. Readers indeed never see a torn bundle
  (`NeverTorn`), but a reload installs one version if and only if the directory does not change between its reads
  (`WholeIffQuiet`, `ReloadCanStraddle`), and an older reload can overwrite a newer one (`OlderReloadWins`) if and only
  if a reload begins while another has begun, can still finish and has yet to take the lock (`NewerWins`,
  `OverlapCanRevert`). The model follows the code.
* `RecentTasks` returns exactly when no running scrub in its window is found finished; otherwise it waits for the mutex
  it holds, for ever, and with it everything else that needs the mutex (`RecentFinishes`, `StoppedForEver`). One scrub
  that was started and is over is enough (`StartedScrubStops`).
* An outcome can be filed under the wrong call if and only if a call begins with the id of one still on its way
  (`GuardSuffices`, `GuardIsExact`); ids are the clock's nanoseconds, so two calls begun together do
  (`SharedIdMisfiles`).
* Two chips can share a series if and only if the longer name is the shorter one followed by ":" alone or by text that
  starts with "::" (`KeyClash`); for instance "a" and "a::b".
* Clearing a threshold undoes setting it if and only if neither name has surrounding space, because only setting trims
  (`ClearUndoesSet`).
* A Put panics if and only if one of its sends meets a watcher that has been cancelled, before or during the Put
  (`PutPanicsExactly`, `CancelledWatcherPanics`); its value is stored by then (`ValueIsStored`).
* A NaN or infinite threshold stops the sensor file from being written until it is replaced or cleared (`NaNFreezes`,
  `FileTracksMemory`).
* Event streams are read back exactly if no event has a CR in its data (`RoundTrip`); a line of `zpool events` with a
  CR inside breaks that (`EventsReachBrowser`).

## Model

| member | source | states |
|---|---|---|
| CertificateSteps.PathsAreDistinct | porcelain/internal/secrets/selfsigned.go:136-138 | Two names or two parts never share a path, whatever characters the names hold |
| CertificateSteps.InitialIsOk | porcelain/internal/secrets/selfsigned.go:43-63 | A start over any store contents, absent, garbage or torn, meets the invariants that all later results need |
| CertificateSteps.RunSafe | porcelain/internal/secrets/selfsigned.go:81-110 | Every step of any interleaving, also a failing one, keeps: each stored blob belongs to an issue for the name it is stored under, and every call holds whole pairs only |
| CertificateSteps.ReaderNeverMixes | porcelain/internal/secrets/selfsigned.go:43-63 | In every interleaving a reader ends with an error or one whole pair of a single issue, made for the name it read or stored before the run |
| CertificateSteps.NamesAreIsolated | porcelain/internal/secrets/selfsigned.go:43-110 | Over every run that writes nothing under a name, whatever is issued, renewed or torn under others: its slots stay, and a reader of it whose reads work returns what was there when it began |
| CertificateSteps.SoloIssueSettles | porcelain/internal/secrets/selfsigned.go:81-110 | A call that issues (an `Issue`, a start or a tick), works and overlaps no other issue of its name leaves in place a pair made during the call, the newest for the name, whatever was there before; if it reads under the name it writes, that pair is what it returns or serves |
| CertificateSteps.ReaderGetsLatest | porcelain/internal/secrets/selfsigned.go:43-63 | A reader that is under way over a settled pair, with nothing issued for its name beside it, returns that pair, which stays in place and stays the newest ever made for the name |
| CertificateSteps.IssueThenRead | porcelain/internal/secrets/selfsigned.go:43-110 | After any run from any store contents, a call that issues with nothing overlapping it, then a read: the pair in place was made during the call, the reader returns it and no newer one exists |
| CertificateSteps.StartRecovers | porcelain/internal/certmanager/lifecycle.go:70-93 | In every interleaving, over any store contents: a start that reads under the name it writes to, whose steps work and beside which no other call writes that name, can only finish with a pair: the stored one if that loads, otherwise the one it made, which is then in place whole |
| CertificateSteps.NamelessNeverStarts | porcelain/internal/certmanager/lifecycle.go:70-93 | In every interleaving, also one in which every step works: a start with an empty name and a default name can only finish in an error, unless a pair that loads is stored under the empty name already; nothing that runs ever puts one there |
| CertificateSteps.OrderNeverTears | porcelain/internal/secrets/selfsigned.go:81-110 | From any store contents, in every run in which the issues of a name do not overlap and their Puts work: whenever nobody writes for the name and one was made, the newest pair is in place whole |
| CertificateSteps.OrderThenRead | porcelain/internal/secrets/selfsigned.go:43-110 | After any such run that made a pair, once nobody writes, a reader beside which nothing is issued for the name returns the newest pair ever made for it |
| CertificateSteps.OverlapCanTear | porcelain/internal/secrets/selfsigned.go:81-110 | Conversely, in every reachable system with two calls of one name between key generation and last Put, some continuation in which every step works lets both succeed and leaves a pair that does not load |
| CertificateSteps.OverlapTears | porcelain/internal/secrets/selfsigned.go:81-110 | A run from every initial store, with two `Issue`s that both succeed, that ends so |
| CertificateSteps.LoneRead | porcelain/internal/secrets/selfsigned.go:43-63 | A reader that runs alone returns the stored pair if it loads and an error exactly when it does not, and changes nothing |
| CertificateSteps.ServingNeverStops | porcelain/internal/certmanager/lifecycle.go:37-93 | Once something is served, every handshake in every continuation gets a matching pair, whatever fails at whichever step |
| CertificateSteps.StartedServes | porcelain/internal/certmanager/lifecycle.go:23-34 | A start or tick that has succeeded has put a pair in place |
| CertificateSteps.OnlySwapChangesServing | porcelain/internal/certmanager/lifecycle.go:70-93 | Only the final swap of a start or tick changes what is served; every other and every failing step leaves it |
| CertificateSteps.FailedIssueEnds | porcelain/internal/secrets/selfsigned.go:81-110 | Beside whatever a call fails to issue, at whichever of the three steps, it ends there with an error and what is served stays |
| TlsManagement.SelfSignedStore.Get | porcelain/internal/secrets/memory.go:30-40 | One backend read: what is stored, or nothing if the read fails |
| TlsManagement.SelfSignedStore.Put | porcelain/internal/secrets/memory.go:43-61 | One backend write: done, not done, or broken off into junk |
| TlsManagement.SelfSignedStore.GetCertificate | porcelain/internal/secrets/selfsigned.go:43-63 | The code does exactly the two reading steps of any call it is part of; what it returns matches |
| TlsManagement.SelfSignedStore.Issue | porcelain/internal/secrets/selfsigned.go:81-110 | The code does exactly the issuing steps: generate, put the certificate, put the key, stop at the first failure |
| TlsManagement.TlsManager.Handshake | porcelain/internal/certmanager/lifecycle.go:37-46 | A handshake is answered from memory without a store access; what it is answered with matches, by the invariant every start and tick keeps |
| TlsManagement.Serve | porcelain/internal/certmanager/lifecycle.go:23-67 | A start, any number of ticks with any failures, then a handshake: if the start succeeded the handshake is answered with what the start and just that many ticks, each run to its end, leave in service, and that is a matching pair |
| TlsManagement.TlsManager.LoadOrBootstrap | porcelain/internal/certmanager/lifecycle.go:70-93 | The code runs its call to the end of the step system; success leaves a matching pair served, failure leaves the old one |
| TlsManagement.TlsManager.Tick | porcelain/internal/certmanager/lifecycle.go:49-67 | One tick is the ticking call run to its end; a tick that fails anywhere leaves the served pair |
| TlsManagement.NewTLSManager | porcelain/internal/certmanager/lifecycle.go:23-34 | The constructor is the starting call run to its end; it succeeds exactly when a pair is loaded, and the pair matches |
| TlsManagement.StartupRecovery | porcelain/internal/certmanager/lifecycle.go:70-93 | From any contents, with working steps: start-up succeeds if and only if the stored pair loads or is issued under the name read, serves a matching pair, and issues exactly when the stored pair does not load |
| TlsManagement.NamelessStart | porcelain/internal/certmanager/lifecycle.go:74-93 | The input on which start-up fails: an empty name, any default name and an empty store; one pair is issued, under the default name, and nothing is served |
| TlsManagement.Bootstrap | porcelain/internal/certmanager/lifecycle.go:74-93 | The bootstrap half ends with the pair it issued, or in an error when it issues under another name |
| TlsManagement.TickRenews | porcelain/internal/certmanager/lifecycle.go:53-66 | A tick that works serves the very pair it issued if it issues under the name it reads; otherwise what loads under the name it reads, and failing that what was served before |
| TlsManagement.FailedRenewal | porcelain/internal/certmanager/lifecycle.go:58-63 | A tick whose renewal fails at any of its three calls reads nothing more, serves what was served and ends in an error |
| TlsManagement.FailedReadIssues | porcelain/internal/certmanager/lifecycle.go:70-93 | One failed read is enough for a start, and for a tick after its renewal, to issue a pair whatever is stored; under the name it reads that pair is then served |
| FilesystemStore.Store.Reload | porcelain/internal/secrets/filesystem.go:101-139 | Server pair, roots and leaf are replaced together exactly if all three files are there, the pair matches and the roots parse; otherwise nothing changes |
| FilesystemStore.Store.GetCertificate | porcelain/internal/secrets/filesystem.go:57-65 | What is returned is the loaded pair, and it matches |
| FilesystemStore.Store.GetCA | porcelain/internal/secrets/filesystem.go:68-75 | There are roots exactly when there is a server pair |
| FilesystemStore.RunKeepsInv | porcelain/internal/secrets/filesystem.go:101-139 | Every interleaving of reloads, directory changes, ticks and starts keeps: what is set comes from usable files, and a half-done commit holds the lock |
| FilesystemStore.NeverTorn | porcelain/internal/secrets/filesystem.go:101-139 | Whenever a reader can look, the three fields are those of one single reload |
| FilesystemStore.StaysLoaded | porcelain/internal/secrets/filesystem.go:101-139 | Once loaded, always loaded |
| FilesystemStore.StartsAlwaysLoad | porcelain/internal/certmanager/lifecycle.go:70-93 | Over a constructed filesystem store a start never fails and so never asks it to issue |
| FilesystemStore.ServingNeverStops | porcelain/internal/certmanager/lifecycle.go:37-93 | Handshakes after a start get a matching pair in every continuation |
| FilesystemStore.OnlySwapChangesServing | porcelain/internal/certmanager/lifecycle.go:49-67 | Only the swap step changes what is served |
| FilesystemStore.EndedWellServes | porcelain/internal/certmanager/lifecycle.go:58-93 | In every interleaving: a tick that ended well has set all three fields itself, then looked at the installed pair with nobody committing, and then put exactly that pair in service; a start that ended well has done the last two |
| FilesystemStore.TickServes | porcelain/internal/certmanager/lifecycle.go:58-93 | Over a directory with usable files, nothing beside it and the lock free, a tick serves the pair in the directory, whatever was installed and served before |
| FilesystemStore.WholeIffQuiet | porcelain/internal/secrets/filesystem.go:101-139 | In every interleaving with other reloads, ticks and changes: what a reload installs is of one version if and only if the directory does not change between its first and its last read, and it then is the version the reload began with |
| FilesystemStore.ReloadCanStraddle | porcelain/internal/secrets/filesystem.go:99-121 | A run in which a change between two reads is installed as the pair of one version with the roots of the next, against the comment |
| FilesystemStore.NewerWins | porcelain/internal/secrets/filesystem.go:131-136 | In every run from a constructed store in which no reload begins to read while another has begun, can still finish and has yet to take the lock: what is installed later was read later, every file of it |
| FilesystemStore.OverlapCanRevert | porcelain/internal/secrets/filesystem.go:131-136 | And only then: in every reachable state in which a reload is about to begin out of turn, some continuation lets the one that had begun install its older files last |
| FilesystemStore.OlderReloadWins | porcelain/internal/secrets/filesystem.go:131-136 | Such a run from every constructed store with a usable directory: the older bundle replaces the newer one |
| SecretHeap.CloneBytes | porcelain/internal/secrets/memory.go:111 | A new buffer with the same bytes |
| SecretHeap.CloneEntries | porcelain/internal/secrets/memory.go:112-117 | A new map with the same entries |
| SecretHeap.CloneSecretValue | porcelain/internal/secrets/memory.go:105-120 | A copy that says the same in buffers that are all new, but names the same expiry pointer |
| SecretHeap.MemoryStore.Get | porcelain/internal/secrets/memory.go:30-40 | What is stored, in buffers nobody has held before; an error exactly when nothing is stored |
| SecretHeap.MemoryStore.StoreCopy | porcelain/internal/secrets/memory.go:43-51 | The first half of `Put`: only new buffers enter the store, a missing creation time is filled in, other paths keep their very values |
| SecretHeap.MemoryStore.Fill | porcelain/internal/secrets/memory.go:53-58 | A send into an empty slot: a copy of the stored value in new buffers |
| SecretHeap.MemoryStore.Offer | porcelain/internal/secrets/memory.go:53-58 | One non-blocking send: a full slot keeps its value |
| SecretHeap.MemoryStore.OfferAll | porcelain/internal/secrets/memory.go:53-58 | The fan-out loop: exactly the channels before the first closed one are served |
| SecretHeap.MemoryStore.Put | porcelain/internal/secrets/memory.go:43-61 | The whole new store and every slot; it panics exactly when a registered channel is closed, the value being stored already; no buffer of a caller gets into the store |
| SecretHeap.MemoryStore.Delete | porcelain/internal/secrets/memory.go:64-70 | Removes the path, nothing else |
| SecretHeap.MemoryStore.Watch | porcelain/internal/secrets/memory.go:89-102 | A new open, empty channel with no buffers, at the end of the path's list |
| SecretHeap.MemoryStore.Cancel | porcelain/internal/secrets/memory.go:96-99 | The channel is closed and stays registered |
| SecretHeap.MemoryStore.Receive | porcelain/internal/secrets/memory.go:89-102 | The pending value leaves the channel for the caller with all its buffers; the store keeps none of them and nobody else held one |
| SecretHeap.Scribble | porcelain/internal/secrets/memory.go:105-120 | No sequence of writes by callers to data, metadata or version changes what is stored or pending |
| SecretHeap.PutWriteGet | porcelain/internal/secrets/memory.go:30-61 | Put, then any writes to the value put and to all others held, then Get: bytes, version, metadata entries and expiry pointer are those put, and so is the creation time unless it was missing, which then is the time of the Put |
| SecretHeap.ExpiryIsShared | porcelain/internal/secrets/memory.go:105-120 | A write through the caller's expiry pointer does show in a later Get |
| SecretClient.Client.Put | porcelain/internal/secrets/memory.go:43-61 | A Put of anything the callers hold is recorded with its bytes, version, metadata, expiry and creation time at that moment (a missing one filled in), a Put of nothing as an empty value; only empty slots are filled |
| SecretClient.Client.Get | porcelain/internal/secrets/memory.go:30-40 | A Get hands out a value that shares no buffer with any held before |
| SecretClient.Client.Receive | porcelain/internal/secrets/memory.go:89-102 | So does a receive |
| SecretClient.Client.WriteTo | porcelain/internal/secrets/memory.go:105-120 | A write to anything held leaves what is stored and pending as recorded |
| SecretClient.Client.Share | porcelain/internal/secrets/memory.go:105-120 | So does making a value from buffers of others that are held |
| SecretClient.Client.Make | porcelain/internal/secrets/memory.go:105-120 | And making a value of one's own, with an expiry or without |
| SecretClient.Client.Run | porcelain/internal/secrets/memory.go:30-120 | Any sequence of Put, Get, Delete, Watch, cancellation, receive, caller writes and values the callers make, with an expiry or without, in any state reached from an empty store: each of the first three and each receive from a channel there leaves one record; every Get returns the content of the last Put to its path, every receive that of the Put that filled the slot; and the values handed out, one for each record that has one, share no buffers |
| SecretClient.Anything | porcelain/internal/secrets/memory.go:22-27 | The same from a new store |
| SecretClient.TruthfulMeans | porcelain/internal/secrets/memory.go:30-40 | What the run property says of each single Get and receive |
| WatchProtocol.ClosedIffCancelled | porcelain/internal/secrets/memory.go:89-102 | A registered channel is closed exactly when its watcher was cancelled; none is ever removed or reopened |
| WatchProtocol.DeliveryIsExact | porcelain/internal/secrets/memory.go:43-61 | In every run, whatever is cancelled: received values plus the pending one are exactly the offers that found the slot empty while the watcher was open, in order |
| WatchProtocol.EveryPutIsOffered | porcelain/internal/secrets/memory.go:53-58 | In every run: each value put since registration whose Put did not panic at the watcher or before it is offered to the watcher once, in order; without a cancellation on the path those are all values put |
| WatchProtocol.SlotKeepsOldest | porcelain/internal/secrets/memory.go:53-58 | With no receive a full slot keeps its value, whatever is put |
| WatchProtocol.PutNeverBlocks | porcelain/internal/secrets/memory.go:53-58 | A Put under way can always take its next step, never waits for a receive, and gets nearer its end with each step |
| WatchProtocol.ValueIsStored | porcelain/internal/secrets/memory.go:43-51 | While watchers are served the new value is already stored |
| WatchProtocol.StoredIsLastPut | porcelain/internal/secrets/memory.go:43-70 | In every run, also while a Put runs and after a panic, under each path is what was last put there and not deleted since |
| WatchProtocol.MutexKeepsOut | porcelain/internal/secrets/memory.go:43-102 | Registration, deletion and another Put wait for a running Put; a receive of what is pending and the cancellation of an open watcher never wait |
| WatchProtocol.PutPanicsIff | porcelain/internal/secrets/memory.go:51-58 | A running Put that still has to serve a closed watcher panics whatever else happens; one that has not panics only if a watcher of its path is cancelled while it runs |
| WatchProtocol.PutPanicsIffCancelled | porcelain/internal/secrets/memory.go:51-58 | A Put begun in any reachable state panics if some watcher ever registered on its path was cancelled, and does not if none was before and none is during the Put; its value is stored all the same |
| WatchProtocol.DoomedPutNeverEnds | porcelain/internal/secrets/memory.go:51-58 | With a closed watcher still ahead a Put never completes, also when more watchers are cancelled meanwhile |
| WatchProtocol.NoCancelNoPanic | porcelain/internal/secrets/memory.go:89-102 | Runs without cancellation on a path never panic on it |
| WatchProtocol.PanicsAreCancelledSends | porcelain/internal/secrets/memory.go:51-58 | In every run, with cancellations at any time, the panics are exactly the sends that came to a watcher cancelled before them |
| WatchProtocol.PutPanicsExactly | porcelain/internal/secrets/memory.go:51-58 | One Put in any reachable state with anything beside it: it panics, once, if and only if one of its sends meets a watcher cancelled before or during the Put |
| WatchProtocol.CancelledWatcherPanics | porcelain/internal/secrets/memory.go:51-58 | The two inputs: with one watcher, cancelled before the Put or during it, the Put panics and its value is stored |
| TaskLog.Tracker.TaskStart | porcelain/internal/modules/zfs/zfs.go:442-456 | Appends a running entry with the id, action, target and time given, and keeps the newest 199 of the others |
| TaskLog.Tracker.UpdateTask | porcelain/internal/modules/zfs/zfs.go:470-488 | Changes state, message and end time of the newest entry with the id in place, nothing else of it and no other entry; without an id nothing |
| TaskLog.Tracker.CopyWindow | porcelain/internal/modules/zfs/zfs.go:422-439 | The copying loop yields the newest entries, newest first |
| TaskLog.UpdateOfLast | porcelain/internal/modules/zfs/zfs.go:470-488 | Updating a tail is the tail of updating the whole, whether or not the entry is still in it |
| TaskLog.CappedRefinesLog | porcelain/internal/modules/zfs/zfs.go:442-488 | After any run the list is the last 200 entries of the log that never forgets, also when ids repeat |
| TaskLog.EvictedUpdateIsLost | porcelain/internal/modules/zfs/zfs.go:470-488 | An update of an entry that was cut off changes nothing |
| TaskLog.WindowOfLog | porcelain/internal/modules/zfs/zfs.go:422-439 | Before enrichment a reader sees the newest min(limit, 200) log entries in reverse |
| TaskLog.EndTimes | porcelain/internal/modules/zfs/zfs.go:470-488 | In every reachable list an end time is zero exactly while the state is running |
| TaskLog.ActionTexts | porcelain/internal/modules/zfs/zfs.go:490-494 | The texts stored for the five operations differ, so the test for "scrub-start" picks out exactly the started scrubs |
| TaskLog.MessageTexts | porcelain/internal/modules/zfs/zfs.go:506-511 | What is stored for a success or a finished scrub is never blank, whatever the status text, and what an operation stores has no space around it |
| TaskAccounting.OneEntryPerCall | porcelain/internal/modules/zfs/zfs.go:251-388 | In every interleaving, also where ids collide, each call that passes validation has added exactly one entry once it has begun, and a rejected one none |
| TaskAccounting.OutcomeOfCall | porcelain/internal/modules/zfs/zfs.go:251-388 | Under any interleaving in which no call begins with the id of one still on its way, each entry shows where the call is that made it: running without end time until it is closed; then failed exactly if the call returned an error, running for a started scrub, done otherwise, with the message the call closed with |
| TaskAccounting.CommandsDecide | porcelain/internal/modules/zfs/zfs.go:251-388 | In every run: an accepted call fails exactly at its first command that fails, with that command's output as its message, and succeeds only when all have worked, two to create a pool and one for everything else |
| TaskAccounting.EntryOfId | porcelain/internal/modules/zfs/zfs.go:470-488 | With distinct ids the entry that has the id of a call is that call's own |
| TaskAccounting.DistinctIsGuarded | porcelain/internal/modules/zfs/zfs.go:442-456 | Distinct ids are such a run |
| TaskAccounting.RunKeepsInv | porcelain/internal/modules/zfs/zfs.go:442-488 | Every such run keeps: list and log agree, entries belong to different calls, each shows where its call is, and the entry of a call on its way is the newest with its id |
| TaskAccounting.GuardSuffices | porcelain/internal/modules/zfs/zfs.go:470-488 | In such a run no outcome is misfiled |
| TaskAccounting.GuardIsExact | porcelain/internal/modules/zfs/zfs.go:470-488 | Every other run has a point from which some continuation misfiles an outcome, whatever the kinds of the calls |
| TaskAccounting.SharedIdMisfiles | porcelain/internal/modules/zfs/zfs.go:442-456 | Two accepted calls of any kinds begun in one nanosecond are enough |
| TaskLock.MutualExclusion | porcelain/internal/modules/zfs/zfs.go:429-430 | No two calls are ever inside the mutex together |
| TaskLock.RecentOutcome | porcelain/internal/modules/zfs/zfs.go:422-440 | In any run a returned call met no finished scrub and returns its window refreshed; one that waits for itself met one |
| TaskLock.RecentFinishes | porcelain/internal/modules/zfs/zfs.go:490-514 | From inside the loop the call returns its window refreshed, mutex free and list unchanged, exactly when no entry still ahead is found finished |
| TaskLock.RecentReturnsIff | porcelain/internal/modules/zfs/zfs.go:422-514 | From its begin, with the mutex free: it returns copies of the newest entries exactly when none of them is a running scrub with an id whose pool reports no scrub in progress; each copy differs from its entry only if that is a running scrub, by what its pool reports |
| TaskLock.OthersAreLeftAlone | porcelain/internal/modules/zfs/zfs.go:490-494 | With no scrub running, whatever else is running and whatever the pools report, it returns the newest entries as they are |
| TaskLock.ReaderFreezesTasks | porcelain/internal/modules/zfs/zfs.go:429-440 | While a reader is inside no step of any thread changes the list |
| TaskLock.FinishedScrubStops | porcelain/internal/modules/zfs/zfs.go:422-514 | A run that waits for itself, from every list whose newest entry is a running scrub with an id, for every limit: one call of `RecentTasks` that finds the scrub over, two turns of it |
| TaskLock.StartedScrubStops | porcelain/internal/modules/zfs/zfs.go:325-340 | A single `StartScrub` that worked leaves such a list, with any id the clock gives |
| TaskLock.ChangeApplies | porcelain/internal/modules/zfs/zfs.go:442-488 | A call that changes the list, with the mutex free, does so once and frees the mutex |
| TaskLock.EmptyUpdateNeverWaits | porcelain/internal/modules/zfs/zfs.go:470-475 | An update of no entry returns at once, whoever has the mutex |
| TaskLock.StoppedForEver | porcelain/internal/modules/zfs/zfs.go:470-475 | After the self-wait, in every continuation: the list is fixed, the mutex never free, no call that needs it ever starts |
| TaskLock.EnrichTasks | porcelain/internal/modules/zfs/zfs.go:490-514 | The loop as code: it completes exactly when no entry is a running scrub with an id found over; every entry of another action or state comes back equal, a running scrub with what its pool reports |
| TaskLock.RecentTasks | porcelain/internal/modules/zfs/zfs.go:422-440 | The call as code, alone: same outcome, on the window of the list |
| TaskLock.RecordedAgrees | porcelain/internal/modules/zfs/zfs.go:506-513 | The sequential meaning that was intended: the list entry of each scrub found finished would become the copy that is returned, with its end time filled in, and every other entry would stay |
| EventStream.ResponseWriter.WriteString | porcelain/internal/server/router.go:662-671 | A buffered write: all bytes of the text, or some first bytes of them, perhaps part of a character, and then nothing any more |
| EventStream.WriteEvent | porcelain/internal/server/router.go:661-672 | The writer sends the event's bytes, or on an error the first of them |
| EventStream.SendSnapshot | porcelain/internal/server/router.go:566-581 | Both events of a snapshot in order, or the first bytes of them |
| EventStream.Stream | porcelain/internal/server/router.go:583-596 | The loop sends every snapshot, or stops at the first error with the first bytes of the stream sent |
| EventStream.EventsOfAre | porcelain/internal/server/router.go:566-578 | What the loop sends for each snapshot is its events text as "events" and then its tasks text as "tasks" |
| EventStream.DecodePrefix | porcelain/internal/server/router.go:661-672 | Reading part of the text of any stream sees a prefix of its events |
| EventStream.ReceivedPrefix | porcelain/internal/server/router.go:661-672 | And so does reading part of its bytes, whatever bytes they are and wherever they are cut, also inside a character |
| EventStream.ReceivedAreCarried | porcelain/internal/server/router.go:661-672 | No bytes at all make a reader see an event with a line break in its name or a CR in its data |
| EventStream.RoundTrip | porcelain/internal/server/router.go:661-672 | The bytes of a written list are read back exactly if and only if all names are non-empty and on one line and no data holds a CR; empty data, leading spaces and trailing newlines included |
| EventStream.CutStream | porcelain/internal/server/router.go:566-596 | However many bytes arrive, also if they end inside a character, the client has seen the first of the events, whole and in order |
| Utf8.RoundTrip | porcelain/internal/server/router.go:662-671 | Every text, sent as UTF-8, is decoded to itself |
| Utf8.CutBytes | porcelain/internal/server/router.go:662-671 | Of any bytes, also ill-formed ones, a first part decodes to the first of the text with at most one replacement character after it |
| Utf8.CutText | porcelain/internal/server/router.go:662-671 | Of the bytes of a text, a first part decodes to the first characters of the text, and the one it was cut in is replaced |
| Utf8.AsciiGetsThrough | porcelain/internal/server/router.go:662-671 | A byte below 128 is read whatever stands before it, also an unfinished or ill-formed character, so no line break of the stream is lost and none appears |
| EventPage.RecentEvents | porcelain/internal/modules/zfs/zfs.go:391-419 | The last `limit` trimmed non-blank lines of the output, in order |
| EventPage.CleanedAreFit | porcelain/internal/modules/zfs/zfs.go:406-414 | Every line shown is non-empty, on one line, with no space around it |
| EventPage.CleanedIsFixed | porcelain/internal/modules/zfs/zfs.go:406-414 | Lines already clean pass unchanged |
| EventPage.CleanedIff | porcelain/internal/modules/zfs/zfs.go:404-414 | What is shown of the output is exactly every text in its lines, in order: margins and blank lines are lost, nothing else, and nothing is added |
| EventPage.EscapeRoundTrip | porcelain/internal/server/router.go:606-607 | A browser shows exactly the text that was escaped |
| EventPage.EscapedIsInert | porcelain/internal/server/router.go:606-607 | Escaped text holds no markup character, and breaks lines exactly where the text does |
| EventPage.PageShowsLines | porcelain/internal/server/router.go:601-608 | The fragment shows the lines and nothing else, also none |
| EventPage.EventsReachBrowser | porcelain/internal/server/router.go:566-608 | From command output to browser: the event is read back and shows the last lines exactly when none has a CR inside |
| ScrubStatus.ParseScrubProgress | porcelain/internal/modules/zfs/zfs.go:530-574 | The scanning loops compute the result from the first scan line and the first non-blank line after it |
| ScrubStatus.ReadScan | porcelain/internal/modules/zfs/zfs.go:538-571 | One scan line with, for a running scrub, the first non-blank line after it |
| ScrubStatus.ParserIsLocal | porcelain/internal/modules/zfs/zfs.go:530-574 | Two texts that agree on those lines, up to surrounding space, give the same result |
| ScrubStatus.LayoutReadBack | porcelain/internal/modules/zfs/zfs.go:576-606 | A progress line `..., P% done, E to go` with no earlier marker and comma-free E gives exactly P and E |
| ScrubStatus.LonePercent | porcelain/internal/modules/zfs/zfs.go:576-590 | A percentage with no counters before it is read too |
| ScrubStatus.MissingFields | porcelain/internal/modules/zfs/zfs.go:576-606 | Without its marker a field is empty, and so is the time left with no comma before it |
| ScrubStatus.RunningScrubReadBack | porcelain/internal/modules/zfs/zfs.go:530-606 | A whole status text with such a line gives exactly its pool, state, summary, P, E and detail line |
| ScrubStatus.StateReadBack | porcelain/internal/modules/zfs/zfs.go:530-574 | Every status text with a scan line, whatever its margin, gives the text of the first one as summary and the state of the first phrase it has: in progress, repaired, canceled or stopped, none requested, or the text itself |
| ScrubStatus.SinceReadBack | porcelain/internal/modules/zfs/zfs.go:540-542 | The start time is what follows the first " since " |
| ScrubStatus.NoScanReadsNothing | porcelain/internal/modules/zfs/zfs.go:530-537 | A text without a scan line says nothing |
| SensorHistory.KeyDetermines | porcelain/internal/modules/sensors/sensors.go:238-240 | Unless two chip names can clash a key determines chip and reading |
| SensorHistory.KeyClash | porcelain/internal/modules/sensors/sensors.go:238-240 | Two different chips have readings that share a key if and only if the longer name is the shorter one followed by ":" alone or by text that starts with "::" |
| SensorHistory.LoadOfSave | porcelain/internal/modules/sensors/sensors.go:242-296 | Loading what was saved gives equal thresholds and samples equal in value and whole second |
| SensorHistory.SaveOfLoad | porcelain/internal/modules/sensors/sensors.go:242-296 | Saving that again writes the same state |
| SensorHistory.RestartIsInvisible | porcelain/internal/modules/sensors/sensors.go:183-202 | `History` returns the same list before and after for every key and limit |
| SensorHistory.RunRefines | porcelain/internal/modules/sensors/sensors.go:151-296 | In every run of snapshots, overrides, clears and restarts the memory shows the unbounded log, and the file would bring back the log as of the last finite state |
| SensorHistory.HistoryIsComplete | porcelain/internal/modules/sensors/sensors.go:183-202 | For every limit from 1 to 240 the history is the last that many of all samples ever taken, for none the last 30, and beyond 240 the last 240 |
| SensorHistory.RequestIsAnswered | porcelain/internal/server/router.go:824-830 | A request for n samples with n from 1 to 240 is answered with the last n of all, any other or absent limit with the last 30 |
| SensorHistory.RestartInRun | porcelain/internal/modules/sensors/sensors.go:242-267 | A restart at any point where all overrides are finite goes unnoticed |
| SensorHistory.StartIsReloadable | porcelain/internal/modules/sensors/sensors.go:242-267 | Every start is one the next result covers: over no file, an unreadable one, or any with finite numbers |
| SensorHistory.FileTracksMemory | porcelain/internal/modules/sensors/sensors.go:269-296 | From every start: what the file would bring back is the memory at the last operation that left everything finite, and once something was saved the file is the saved form of that memory |
| SensorHistory.SavingCatchesUp | porcelain/internal/modules/sensors/sensors.go:269-296 | Any operation that saves brings the file in step, whatever it held, exactly if everything is then finite |
| SensorHistory.NaNIsNotSaved | porcelain/internal/modules/sensors/sensors.go:151-169 | Setting a threshold that is not finite does not reach the file |
| SensorHistory.NaNFreezes | porcelain/internal/modules/sensors/sensors.go:269-296 | While it is neither replaced nor cleared nothing else does, whatever is sampled, set and cleared |
| SensorHistory.SnapshotAdds | porcelain/internal/modules/sensors/sensors.go:204-236 | A snapshot adds to each series of the module, cut to 240, exactly the samples of the readings with its key, in order |
| SensorHistory.SnapshotLogs | porcelain/internal/modules/sensors/sensors.go:204-236 | And the same samples, uncut, to the unbounded log |
| SensorHistory.OneSamplePerReading | porcelain/internal/modules/sensors/sensors.go:212-232 | Unless names clash, exactly one sample for each reading, its rounded value now, in the module's series and in the log |
| SensorHistory.EmittedParses | porcelain/internal/modules/sensors/sensors.go:335-362 | Every reading emitted parses, to its input rounded to hundredths |
| SensorHistory.ClearUndoesSet | porcelain/internal/modules/sensors/sensors.go:151-180 | Clearing removes the override just set if and only if neither name has surrounding space |
| SensorModule.Module.constructor | porcelain/internal/modules/sensors/sensors.go:242-267 | A new module holds what the file holds, or nothing without a path |
| SensorModule.Module.LoadState | porcelain/internal/modules/sensors/sensors.go:242-267 | The loading loops give the loaded form of the file |
| SensorModule.Module.SaveState | porcelain/internal/modules/sensors/sensors.go:269-296 | The file becomes the saved form of memory, unless there is no path, something is not finite, or the write fails |
| SensorModule.Module.SetThreshold | porcelain/internal/modules/sensors/sensors.go:151-169 | Accepts exactly non-blank names with a number, stores under the trimmed names, saves; a refused call touches nothing |
| SensorModule.Module.ClearThreshold | porcelain/internal/modules/sensors/sensors.go:172-180 | Removes the key as given and saves |
| SensorModule.Module.ReadHistory | porcelain/internal/modules/sensors/sensors.go:183-202 | The last samples of the series, stamped in whole seconds |
| SensorModule.Module.ApplyThresholdsAndHistory | porcelain/internal/modules/sensors/sensors.go:204-236 | The loops add every reading that parses, cut to 240, mark what passes its threshold, and save once |
| SensorModule.Module.ApplyToChips | porcelain/internal/modules/sensors/sensors.go:212-233 | The outer loop adds and marks chip by chip, in order |
| SensorModule.Module.ApplyToChip | porcelain/internal/modules/sensors/sensors.go:213-232 | The inner loop adds and marks reading by reading, in order |
| SensorModule.Module.ApplyToReading | porcelain/internal/modules/sensors/sensors.go:215-231 | One reading: sampled if it parses, cut to 240, marked against the override |
| SensorModule.Module.Snapshot | porcelain/internal/modules/sensors/sensors.go:121-149 | One snapshot is one step of the run, in memory, in the file and in what it returns; without working sensors it returns nothing and on an error it fails, both leaving everything as it was |
| SensorModule.CriticalMeans | porcelain/internal/modules/sensors/sensors.go:204-236 | A reading is shown under its name with its rounded value; critical exactly if that has reached the override, or without one the raw value the sensor's own limit; the limit shown is the one that decided |
| SensorModule.SnapshotShows | porcelain/internal/modules/sensors/sensors.go:121-149 | Every chip and every reading of it is shown, in order, each as above |
| SensorModule.OverrideDecides | porcelain/internal/modules/sensors/sensors.go:151-180 | An accepted override decides about its reading and no other until it is cleared, and then the sensor's own limit does again |
| SensorModule.LimitReads | porcelain/internal/modules/sensors/sensors.go:219-226 | The text shown for an override reads back as the override, rounded if it is finite |
| Decimal.TrimKeepsInteger | porcelain/internal/modules/sensors/sensors.go:398-400 | Trimming never removes an integer digit: the text is the shortest decimal form of the hundredths |
| Decimal.ParseOfFormat | porcelain/internal/modules/sensors/sensors.go:398-400 | Reading the text gives the value rounded to two decimals, sign kept |
| Decimal.NamesReadBack | porcelain/internal/modules/sensors/sensors.go:398-400 | NaN and the infinities are printed by name and read back |
| Decimal.FormatIsStable | porcelain/internal/modules/sensors/sensors.go:398-400 | Formatting that again gives the same text |
| Decimal.FormatIsExact | porcelain/internal/modules/sensors/sensors.go:398-400 | Two values print alike if and only if they round alike |
| ByteSizes.HumanizeBytes | porcelain/internal/templates/funcs.go:101-112 | The loop ends without 64-bit overflow in the unit with div <= b < 1024*div and an index inside the letters |
| ByteSizes.TextReadBack | porcelain/internal/templates/funcs.go:101-112 | The text of every size from 1024 on ends in KiB, MiB, GiB, TiB, PiB or EiB as its size says, and the number before it reads back as the amount of that unit to one decimal |
| ByteSizes.BytesReadBack | porcelain/internal/templates/funcs.go:101-105 | Below 1024 the text reads back as the number of bytes, also a negative one |
| ByteSizes.UnitsAreOrdered | porcelain/internal/templates/funcs.go:101-112 | A larger size never gets a smaller unit, and the unit is unique |
| ByteSizes.ShownIsClose | porcelain/internal/templates/funcs.go:101-112 | The amount shown is within a twentieth of its unit of the size |
| ByteSizes.TiesToEven | porcelain/internal/templates/funcs.go:111 | Where two tenths are equally near, the even one is shown |
| ByteSizes.ShownIsMonotone | porcelain/internal/templates/funcs.go:101-112 | A larger size never reads smaller, also across units |
| ByteSizes.TopOfUnit | porcelain/internal/templates/funcs.go:101-112 | A size reads 1024.0 of its unit exactly when it is within a twentieth of a unit of the next one |

## Left out

- Cryptography: X.509, PEM, TLS and key generation are tokens with a match predicate; a leaf parses whenever its pair
  does; `KeyType` and validity dates are not modelled, so neither are `GetExpiry` and the interval of the renewal loop.
- Commands and the clock: results of `zpool`, `zfs` and `sensors`, write failures and times are arbitrary inputs.
- The fake backend mode of the ZFS module, and nil receivers.
- Encodings: JSON as text and time zones; Go strings are taken to hold UTF-8, so text is characters and only the event
  stream is bytes. JSON is lossless on finite numbers and fails on others; times in the
  file are whole seconds. `last-event-id` and `retry` fields of a stream are skipped by the reader.
- Binary floating point: a finite float64 is a sign and an exact magnitude, so rounding inside `%.2f`, of `float64(b)` and
  of the division in `humanizeBytes` is taken over exact rationals.
- Decimal.ParseOfFormat: `ParseFloat` is modelled on plain decimals and on the texts for NaN and infinities, not on
  exponents, hexadecimals or underscores; `SetThreshold` takes the parsed number as its input instead.
- SensorModule.Module.LoadState: a file with broken JSON is not told apart from an absent one, since the code ignores both.
- SensorModule.Module.Snapshot: units, the high value, the order of names, page texts and error texts.
- SensorHistory.OneSamplePerReading: features with no `_input` value are taken as not reported, and which of several values
  with one suffix is picked is left to the input, because Go's map order is arbitrary.
- SecretHeap.CloneBytes: nil and empty byte slices are not told apart, and a value's own data and metadata fields are fixed
  when it is made.
- SecretClient.Anything: writes through an expiry pointer are not among the calls, since a content names the pointer and not
  the time behind it; `SecretHeap.ExpiryIsShared` has one.
- SecretHeap.PutWriteGet: one pattern of calls; any sequence of them is in `SecretClient.Client.Run`.
- SecretClient.Client.Receive: a receive finds what is pending or nothing; waiting for a value is not modelled.
- SecretClient.Client.Put: a panic leaves the store as it is then, and the callers may go on.
- SecretHeap.MemoryStore.Put: the heap class runs its calls one at a time; the mutex and the interleaving of sends with
  receives and cancellations are in `WatchProtocol`.
- `MemoryStore.List`: a filtered, sorted list of the keys, an easy member.
- TlsManagement.SelfSignedStore.Put: the backend is any map of slots whose calls may fail, of which the memory store is the
  one that never does; a broken-off write leaves junk.
- TaskLog.Tracker.TaskStart: action names and the message texts are datatypes, with the texts given by `ActionName` and
  `MessageText`; ids are numbers with the empty id apart.
- TaskAccounting.OutcomeOfCall: a command is one step with a result and an output; its text and timeout are not modelled.
- TaskLock.RecordedAgrees: is about what was evidently intended, not about what the code does, which stops there.
- EventPage.EventsReachBrowser: the tasks half of a snapshot and the error fragment are any text; a browser reads the five
  entities that are written, not all of HTML's.
- ScrubStatus.LayoutReadBack: the percentage is any text that `ParseFloat` reads as above.
- `parseZFSBytes`, module registry, policies, routing, templates, sidebar, badge roll-up, D-Bus clients, socket activation,
  stub backends and `systemd_creds.go`: no state over runs, or plumbing.
