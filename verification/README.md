# PeerBeam, modelled and proved in Dafny

This project models the parts of PeerBeam that decide something on their own and
proves, for every input, run or interleaving, what they promise.

- **Device discovery.** `DeviceStore` and `DiscoveryRegistry` are two reducers
  over the same provider events. `StoreModel` gives the store's step as a function
  on values, and the class in `DeviceStore` is proved to take exactly those steps,
  keeping a ghost history of its calls and reports. `History` reads every field of
  a tracked device and every change a call reports off the calls alone; further run
  theorems are in `StoreRuns`, `Replay`, `Claims`, `Identity`, `AddressHistory` and
  `PruneAlgebra`; `Registry`, `MergedOutput`, `Confluence` and
  `IdentityConfluence` do the same for the registry, and `Simulation` compares
  the two.
- **The encrypted record store.** `RecordNames` is the naming scheme, `FileTree`
  says when a directory tree stands for a set of records, and `AppStore` is the
  store itself, refining a map from (namespace, key) to value. `CommitProtocol`,
  `CommitSafety`, `CommitTheorems` and `CommitRetries` model the same commit as a protocol of
  single file-system calls, with several processes, open inodes and crashes.
- **Command-line rules.** `Durations` (printing and parsing), `ConfigPaths`
  (dotted paths into a JSON tree), `SingleFlight` (the drain guard as a
  concurrency protocol) and `Watcher` (when a watched file is sent).

`Order`, `Devices`, `Decimal` and `Wrappers` hold what these share. Timestamps and
durations are integers. What the program gets from its environment is a parameter:
the cipher (sound, and free to fail), nonces, whether each file-system call of a
put, get, listing, deletion or clearing succeeds and how far it got, and the
contents of each scan. `dafny verify dfyconfig.toml` checks everything.

## Where the code and its documentation differ

The model follows the code. Each of these has a lemma.

- `namespaces` is documented to return the namespaces holding a record. It looks
  for non-empty directories, so a temporary left by a crash in an otherwise empty
  namespace makes it listed. `AppStore.FsAppStore.Namespaces` and
  `FileTree.PopulatedIsHoldingPlusRecordless` give the exact condition.
- `list` is documented to return every record of a namespace. It skips an entry
  whose type cannot be told, and `namespaces` a directory it cannot look into,
  where any other failure is an error. `AppStore.FsAppStore.List` and
  `AppStore.FsAppStore.Namespaces` say exactly what is missing then.
- `get` is documented to return nothing for an absent record. The empty key names
  the directory itself: it can never be stored, and reading it is an error when
  the namespace exists (`AppStore.FsAppStore.Get`, `AppStore.FsAppStore.Put`).
- The watcher is documented to send a file unchanged across two consecutive scans.
  It compares with the last scan that saw the file (`Watcher.ConsecutiveScansIff`,
  `Watcher.AbsenceIsNotNoticed`).
- One comment calls `parse_duration` the inverse of `humantime`, another says it
  never was. `Durations.ParseUndoesPrintIff` says on which durations it is.
- The single-flight guard is documented to keep a panic inside the work from
  leaving the flag set, and so from disabling every later call; it does. But the
  guard is made by the task's first poll, so a task that never gets there leaves
  the flag set all the same (`SingleFlight.FlagMeansOutstandingIff`,
  `SingleFlight.LaterCallCanWinIff`).

## Where a property holds only under a condition

- The registry's live set and claims do not depend on how provider streams
  interleave; a device's identity can. While the device is never lost and never
  reported blank, its identity is the last word of whoever reported it first. So
  two interleavings agree exactly when their first reporters' last words do, and
  all of them exactly when every reporter's last word is the same
  (`IdentityConfluence.NamesDependOnWhoIsFirst`,
  `IdentityConfluence.IdentityIsConfluentIff`).
- The store's online set is independent of interleaving exactly when the providers
  that report are apart: beside a LAN provider there are only cross-subnet ones, as
  beside UDP there may be Tailscale (`Simulation.OnlineIsConfluent`).
- A claimed device's identity is its owner's alone exactly when its name is not
  blank and its port not zero (`Identity.ImmuneIffNothingBlank`).

## Model

| member | source | states |
|---|---|---|
| Devices.UnionAddresses | rust/crates/peerbeam-app/src/device_store.rs:336-342 | the old list is a prefix of the new one, the new one holds exactly both, and no repeat is introduced |
| Devices.UnionInOrder | rust/crates/peerbeam-app/src/device_store.rs:336-342 | what is appended stands in the order of its first mention |
| Devices.MergeSighting | rust/crates/peerbeam-app/src/device_store.rs:335-381 | the loop that pushes addresses and picks identity fields computes the shared merge |
| Devices.RepeatedSightingIsSilent | rust/crates/peerbeam-app/src/device_store.rs:603-615 | merging the same sighting twice is merging it once, for any two devices and either owner rule |
| Devices.SameButForTime | rust/crates/peerbeam-domain/src/entity/device.rs:70-77 | same identity is equality once the timestamps are made equal |
| DeviceStore.DeviceStore.Observe | rust/crates/peerbeam-app/src/device_store.rs:66-73 | one provider event takes the table through the specified step and is logged with what it reported |
| DeviceStore.DeviceStore.UpsertDevice | rust/crates/peerbeam-app/src/device_store.rs:75-154 | admission, cap, takeover, merge and the exact changes reported for a sighting |
| DeviceStore.DeviceStore.DropProvider | rust/crates/peerbeam-app/src/device_store.rs:174-208 | which claims a Lost leaves, the LAN collapse, and the one change it reports |
| DeviceStore.DeviceStore.OfflineAll | rust/crates/peerbeam-app/src/device_store.rs:159-172 | every online device loses all claims and is reported once, in some order; nothing else changes |
| DeviceStore.DeviceStore.RecordLatency | rust/crates/peerbeam-app/src/device_store.rs:211-222 | the latency is stored and reported exactly when it moved |
| DeviceStore.DeviceStore.Prune | rust/crates/peerbeam-app/src/device_store.rs:235-256 | the stale devices are removed and reported once each, in some order |
| DeviceStore.DeviceStore.CapabilitiesFor | rust/crates/peerbeam-app/src/device_store.rs:290-326 | the loop computes: some provider local or unknown, some crossing, all needing Tailscale, and the unique ascending list |
| DeviceStore.DeviceStore.ReportsRebuildTheTable | rust/crates/peerbeam-app/src/device_store.rs:49-256 | for a store object after any calls, folding everything it reported rebuilds what it holds |
| StoreModel.NextAt | rust/crates/peerbeam-app/src/device_store.rs:75-256 | a call's effect on one device depends on that device and on whether there is room, on nothing else |
| StoreRuns.InvAlways | rust/crates/peerbeam-app/src/device_store.rs:28-53 | in every reachable state at most 512 devices, keys equal ids, online iff claimed, and one last-seen time |
| StoreRuns.OnlineIsReachable | rust/crates/peerbeam-app/src/device_store.rs:280-326 | online iff derived capabilities say LAN or remote, iff some provider is listed |
| StoreRuns.SizeStep | rust/crates/peerbeam-app/src/device_store.rs:47-102 | no call takes the table past 512 devices |
| StoreRuns.FloodCannotDisturb | rust/crates/peerbeam-app/src/device_store.rs:82-102 | any run of calls about other devices leaves a tracked device's whole entry alone |
| StoreRuns.RefusedIffFull | rust/crates/peerbeam-app/src/device_store.rs:79-103 | a sighting is refused iff the table holds 512 other devices |
| History.TableIsReadOff | rust/crates/peerbeam-app/src/device_store.rs:75-256 | after any run, a tracked device's name, type, platform, port, online flag, both timestamps, latency, reachability and sorted provider list are what the calls say, without the step function: the owner's word and blanks filled, who stands, the last admitted sighting, the last measurement since it was added, and the standing providers' raw registrations |
| History.StoreTells | rust/crates/peerbeam-app/src/device_store.rs:49-256 | the same for a store object after any calls |
| History.ReachesRead | rust/crates/peerbeam-app/src/device_store.rs:290-326 | LAN iff a sighting stands from an unregistered provider or one that does not cross subnets, remote iff from one that does, Tailscale iff one stands and all standing need it; the providers listed are the standing ones in ascending order |
| History.TrackedStep | rust/crates/peerbeam-app/src/device_store.rs:79-103 | a device is tracked from an admitted sighting until a sweep finds that nothing stands, its last admitted sighting is more than the ttl ago, and it is not kept |
| History.SightingReport | rust/crates/peerbeam-app/src/device_store.rs:104-152 | exactly what a sighting reports and in which order: nothing when refused, added, came back, updated when there is news |
| History.LostReport | rust/crates/peerbeam-app/src/device_store.rs:197-207 | exactly what a Lost reports: offline when nothing stands any more, else the device as it now is |
| History.StopReport | rust/crates/peerbeam-app/src/device_store.rs:159-172 | stopping reports exactly the devices with a standing sighting, once each |
| History.LatencyReport | rust/crates/peerbeam-app/src/device_store.rs:211-222 | a measurement is reported iff it differs from the last one since the device was added |
| History.SweepReport | rust/crates/peerbeam-app/src/device_store.rs:235-256 | a sweep reports exactly the devices it takes, once each |
| Replay.ReplayMirrorsStore | rust/crates/peerbeam-domain/src/event.rs:45-70 | for every run from any snapshot, folding the changes gives the store's devices, identities, online flags, latencies and, when online, capabilities |
| Replay.SnapshotThenFold | rust/crates/peerbeam-engine/src/device_manager.rs:163-172 | a frontend that takes a snapshot and folds every change after it holds what the store holds, after any run |
| Replay.SightingMirrors | rust/crates/peerbeam-app/src/device_store.rs:137-151 | what a sighting reports is enough to keep a client right, in every branch |
| Replay.LostMirrors | rust/crates/peerbeam-app/src/device_store.rs:197-207 | what a Lost reports is enough to keep a client right |
| Replay.SightingSilentIffInvisible | rust/crates/peerbeam-app/src/device_store.rs:144-150 | an admitted sighting is silent iff it changes nothing a frontend can see |
| Claims.ClaimMeansStandingSighting | rust/crates/peerbeam-app/src/device_store.rs:119-208 | after any run a provider claims a device iff an admitted sighting of its own was followed by no killing event |
| Claims.OnlineMeansStandingSighting | rust/crates/peerbeam-app/src/device_store.rs:159-208 | after any run a device is online iff some sighting of it still stands |
| Claims.ClaimStep | rust/crates/peerbeam-app/src/device_store.rs:178-195 | one call's exact effect on one claim |
| Identity.OwnerDictates | rust/crates/peerbeam-app/src/device_store.rs:34-39 | while the owner keeps its claim, name, type, platform and port are what its own sightings dictate |
| Identity.OutsidersCannotInterfere | rust/crates/peerbeam-app/src/device_store.rs:122-131 | erasing every other provider's sightings from a run does not change the identity it ends with |
| Identity.ImmuneIffNothingBlank | rust/crates/peerbeam-app/src/device_store.rs:364-377 | an owned device is free of outsiders over every run that keeps the owner's claim iff its name is not blank and its port not zero |
| Identity.BlankNameIsFilledByOutsider | rust/crates/peerbeam-app/src/device_store.rs:366-370 | an outsider fills a blank name |
| Identity.ZeroPortIsFilledByOutsider | rust/crates/peerbeam-app/src/device_store.rs:373-377 | an outsider fills a zero port |
| Identity.TakeoverAfterDrop | rust/crates/peerbeam-app/src/device_store.rs:126-130 | ownership passes iff the reporter owns or the owner has no claim; a taker's non-blank fields win, and anyone else only fills blanks |
| AddressHistory.AddressesOnlyGrow | rust/crates/peerbeam-app/src/device_store.rs:336-342 | over any run in which a device stays tracked its list keeps what it had and appends what else was reported, in the order of first mention and without new repeats |
| AddressHistory.AddressesSinceAdded | rust/crates/peerbeam-app/src/device_store.rs:104-118 | since its Added, a device's addresses are exactly those reported for it: the first report, then the rest in order of first mention |
| PruneAlgebra.EarlyThenLateIsLate | rust/crates/peerbeam-app/src/device_store.rs:235-256 | pruning at t1 and then at t2 leaves the table and reports the removals of pruning at t2 alone |
| PruneAlgebra.SparedForever | rust/crates/peerbeam-app/src/device_store.rs:229-234 | an online or kept device survives every sequence of prunes unchanged |
| Registry.DiscoveryRegistry.Observe | rust/crates/peerbeam-app/src/discovery.rs:65-111 | one event takes the registry through the specified step and announces the specified event or none |
| Registry.LiveInvAlways | rust/crates/peerbeam-app/src/discovery.rs:95-107 | a live device always has a claim and sits under its own id |
| MergedOutput.MergedStreamIsFaithful | rust/crates/peerbeam-app/src/discovery.rs:187-210 | for every tagged stream the output reads (Found Updated* Lost)* for each peer, each Updated says something new, and it replays to the live set |
| MergedOutput.AnnouncementsRebuildTheRegistry | rust/crates/peerbeam-app/src/discovery.rs:51-111 | the same for a registry object after any calls |
| MergedOutput.AnnouncedIsHeld | rust/crates/peerbeam-app/src/discovery.rs:74-108 | what is announced is the device as then held, to the last field, as found iff it was not live; silence leaves the live set alone |
| MergedOutput.LastSeenIsLastHeard | rust/crates/peerbeam-app/src/discovery.rs:146-160 | a live device carries the time of its last sighting |
| Confluence.ClaimIsLastWord | rust/crates/peerbeam-app/src/discovery.rs:18-27 | a provider claims a device iff its own last event about it was a sighting |
| Confluence.InterleavingDoesNotMatter | rust/crates/peerbeam-app/src/discovery.rs:182-210 | any two interleavings of the same streams end with the same live devices and claims |
| Confluence.AddressesDoNotMatterEither | rust/crates/peerbeam-app/src/discovery.rs:132-138 | until a device is lost, its address set does not depend on the interleaving |
| IdentityConfluence.FirstReporterDictates | rust/crates/peerbeam-app/src/discovery.rs:82-92 | a device never lost and never reported blank ends with the last identity in its first reporter's own stream |
| IdentityConfluence.NamesDependOnWhoIsFirst | rust/crates/peerbeam-app/src/discovery.rs:45-48 | two interleavings of the same streams agree on such a device's identity iff their first reporters' last words do |
| IdentityConfluence.IdentityIsConfluentIff | rust/crates/peerbeam-app/src/discovery.rs:82-92 | all interleavings of given streams agree on it iff all who report it end on the same identity |
| Simulation.StoreClaimsAreLive | rust/crates/peerbeam-app/src/device_store.rs:174-208 | over every run, with prunes and stops, the store's claims are among the registry's |
| Simulation.OnlineIsLive | rust/crates/peerbeam-app/src/discovery.rs:65-111 | over every run, online in the store implies live in the registry |
| Simulation.StoreTracksRegistry | rust/crates/peerbeam-app/src/device_store.rs:119-208 | when the reporting providers are apart, nothing is refused and discovery is not stopped: equal claims, and for live devices equal owner, kind and time, and no address missed |
| Simulation.IdenticalUntilLapse | rust/crates/peerbeam-app/src/discovery.rs:126-131 | under the same conditions both hold the identical record until the device first loses its last claim |
| Simulation.OnlineIsConfluent | rust/crates/peerbeam-app/src/device_store.rs:180-195 | for every set of providers, all undisturbed runs of the same streams from it agree on who is online, whatever the interleaving, sweeps and measurements, iff the set is apart |
| Simulation.LanCollapseDependsOnOrder | rust/crates/peerbeam-app/src/device_store.rs:180-195 | for every LAN provider and every other that does not cross subnets, the same streams in two orders end online and offline |
| Simulation.FewDevicesAreNeverRefused | rust/crates/peerbeam-app/src/device_store.rs:42-47 | a run that mentions at most 512 devices never meets the cap |
| RecordNames.EncodeKey | rust/crates/peerbeam-appstore-fs/src/lib.rs:184-190 | the loop appends the two lower-case digits of each byte |
| RecordNames.EncodedByte | rust/crates/peerbeam-appstore-fs/src/lib.rs:184-190 | each byte is spelled by its two digits of 0-9a-f, the high one first |
| RecordNames.DecodesIff | rust/crates/peerbeam-appstore-fs/src/lib.rs:192-200 | a name decodes to given bytes iff each pair of its characters spells one, in either case, a plus sign standing for a leading nought |
| RecordNames.ValidUtf8Iff | rust/crates/peerbeam-appstore-fs/src/lib.rs:120-122 | the bytes taken for a key are exactly those some sequence of Unicode scalar values encodes to in UTF-8 |
| RecordNames.DecodeAfterEncode | rust/crates/peerbeam-appstore-fs/src/lib.rs:184-200 | decoding an encoding gives the bytes back, for all byte strings |
| RecordNames.EncodeAfterDecodeIffLower | rust/crates/peerbeam-appstore-fs/src/lib.rs:192-200 | the converse holds for exactly the names without upper case or plus signs |
| RecordNames.DottedNeverDecodes | rust/crates/peerbeam-appstore-fs/src/lib.rs:109-120 | no name with a dot, hence no temporary, is ever read as a record |
| RecordNames.TempNameInjective | rust/crates/peerbeam-appstore-fs/src/lib.rs:289-296 | two puts share a temporary name only if key, process and number agree |
| RecordNames.RecordPathInjective | rust/crates/peerbeam-appstore-fs/src/lib.rs:44-64 | distinct (namespace, key) have distinct paths |
| RecordNames.NamespaceIff | rust/crates/peerbeam-appstore-fs/src/lib.rs:44-57 | a namespace is valid iff it is not empty, `.` or `..` and has only letters, digits, dots, underscores and dashes |
| RecordNames.RecordsStayInside | rust/crates/peerbeam-appstore-fs/src/lib.rs:5-9 | whatever the key, record and temporary are plain names inside the namespace; only the empty key has none |
| FileTree.TreeDeterminesRecords | rust/crates/peerbeam-appstore-fs/src/lib.rs:393-407 | the tree alone determines the records, so a reopened store holds what it held |
| FileTree.PopulatedIsHoldingPlusRecordless | rust/crates/peerbeam-appstore-fs/src/lib.rs:151-159 | the directories found are the namespaces holding a record plus those holding only other things, and equal iff there are none of these |
| AppStore.FsAppStore.Put | rust/crates/peerbeam-appstore-fs/src/lib.rs:68-84 | success sets exactly that record, an error changes none, exactly when each happens, and no other file is touched |
| AppStore.TwentyTries | rust/crates/peerbeam-appstore-fs/src/lib.rs:216-226 | a rename is let through iff it is at one of twenty attempts |
| AppStore.FsAppStore.WritePrivate | rust/crates/peerbeam-appstore-fs/src/lib.rs:221-270 | a temporary that is newly created and fully written is committed iff the target can be replaced and one of twenty renames is let through; a failure leaves at most the temporary |
| AppStore.FsAppStore.InterruptedPut | rust/crates/peerbeam-appstore-fs/src/lib.rs:109-114 | a put cut short leaves a temporary and changes no record |
| AppStore.FsAppStore.Get | rust/crates/peerbeam-appstore-fs/src/lib.rs:86-93 | the stored value, nothing, or an error, and exactly when each; on any tree a present record is never reported absent |
| AppStore.FsAppStore.List | rust/crates/peerbeam-appstore-fs/src/lib.rs:95-131 | on any tree, exactly when it succeeds and what it returns, never descending by key; over a store's tree exactly the namespace's records whose type could be told, each key bytewise before the next |
| AppStore.FsAppStore.Namespaces | rust/crates/peerbeam-appstore-fs/src/lib.rs:133-163 | an error iff the root cannot be read, else the matching non-empty directories that could be looked at, each name characterwise before the next; the record-holding ones iff none holds only other things |
| AppStore.FsAppStore.Delete | rust/crates/peerbeam-appstore-fs/src/lib.rs:165-172 | removes exactly that record and says whether it was there; an error removes nothing |
| AppStore.FsAppStore.Clear | rust/crates/peerbeam-appstore-fs/src/lib.rs:174-181 | removes exactly that namespace's records, or stops part-way: then exactly those whose files went are gone, and no other namespace's |
| CommitProtocol.SpellingInjective | rust/crates/peerbeam-appstore-fs/src/lib.rs:289-296 | no record and no temporary share a file name, nor do two of either |
| CommitSafety.InvStep | rust/crates/peerbeam-appstore-fs/src/lib.rs:221-270 | every file-system call of every process, and every crash, keeps the protocol's invariant |
| CommitTheorems.RecordIsLastCommit | rust/crates/peerbeam-appstore-fs/src/lib.rs:219-231 | in every interleaving a record file holds, whole, the value of the last successful rename, and is absent iff there is none since its removal |
| CommitTheorems.ReadIsAtomic | rust/crates/peerbeam-appstore-fs/src/lib.rs:86-93 | a get that takes many steps returns what the record held at one moment while it ran |
| CommitTheorems.FailedPutChangedNothing | rust/crates/peerbeam-appstore-fs/src/lib.rs:243-248 | a put that has not returned success has changed no record |
| CommitTheorems.SuccessfulPutCommittedOnce | rust/crates/peerbeam-appstore-fs/src/lib.rs:226-228 | a put that returned success changed its record once, to its own value |
| CommitTheorems.OverIsFinal | rust/crates/peerbeam-appstore-fs/src/lib.rs:109-114 | a put that failed, or whose process crashed, never takes effect later |
| CommitTheorems.NothingDangles | rust/crates/peerbeam-appstore-fs/src/lib.rs:252-270 | every name and every open file has its bytes, so the protocol's guards exclude nothing reachable |
| CommitRetries.TwentyRenames | rust/crates/peerbeam-appstore-fs/src/lib.rs:225-248 | in every behaviour a put whose file is written gives up at the twentieth refused rename, not before and not after |
| Decimal.DigitsSpell | rust/bins/peerbeam-cli/src/commands.rs:1037-1044 | a printed number spells that number |
| Decimal.DigitsPlaces | rust/bins/peerbeam-cli/src/commands.rs:1037-1044 | a printed number shows every decimal place in order with the numeral of its digit and no leading nought |
| Decimal.TwoDigitsPad | rust/bins/peerbeam-cli/src/commands.rs:1037-1066 | a two-digit field is the number padded with a nought |
| Durations.ReadBack | rust/bins/peerbeam-cli/src/commands.rs:3910-3930 | the character loop computes the sum of the runs, or refuses |
| Durations.HumanTimeReadsBack | rust/bins/peerbeam-cli/src/commands.rs:1034-1066 | for every 64-bit count of seconds the printed text reads back as exactly that count |
| Durations.HumanTimeInjective | rust/bins/peerbeam-cli/src/commands.rs:1019-1027 | different durations print differently |
| Durations.HumanTimeIsClock | rust/bins/peerbeam-cli/src/commands.rs:1034-1066 | for every split into days, hours, minutes and seconds: largest unit first, the rest in two digits, trailing noughts dropped |
| Durations.TrimPadded | rust/bins/peerbeam-cli/src/commands.rs:1084 | trimming takes off exactly the white space on both sides |
| Durations.TypedIsGrant | rust/bins/peerbeam-cli/src/commands.rs:1084-1102 | padding, sign, digits, a unit in either case, padding: such a text is judged on its number and unit alone, and unreadable iff the number does not fit 64 bits |
| Durations.TypedIsGrantedExactly | rust/bins/peerbeam-cli/src/commands.rs:1103-1112 | such a text is granted exactly its seconds, or refused as no window or too long, and a grant prints to text that reads back as it |
| Durations.TypedMeansPrinted | rust/bins/peerbeam-cli/src/commands.rs:1083-1112 | for any padding, sign, digits and last character: unreadable iff the lower-case unit is none of s, m, h, d or the number does not fit 64 bits, else no window, too long, or granted exactly the seconds that the printer's reader reads from the number and that unit |
| Durations.SpacesAre | rust/bins/peerbeam-cli/src/commands.rs:1084 | the padding trimmed is the Unicode white space |
| Durations.ReadableIsTyped | rust/bins/peerbeam-cli/src/commands.rs:1084-1102 | every readable text has that form |
| Durations.ParseUndoesPrintIff | rust/bins/peerbeam-cli/src/commands.rs:1029-1033 | parsing undoes printing iff the duration is a positive number of seconds below a minute or of whole minutes below an hour |
| ConfigPaths.JoinAfterSplit | rust/bins/peerbeam-cli/src/commands.rs:245-252 | splitting a key on dots loses nothing |
| ConfigPaths.LookupIff | rust/bins/peerbeam-cli/src/commands.rs:243-249 | there is a value at a path iff the path can be walked through objects only, and it is where the walk ends |
| ConfigPaths.Navigate | rust/bins/peerbeam-cli/src/commands.rs:243-249 | the cursor loop finds what is at the path, or nothing |
| ConfigPaths.Config.SetPath | rust/bins/peerbeam-cli/src/commands.rs:251-268 | succeeds iff navigating finds the key; replaces that value, and leaves the tree alone on error |
| ConfigPaths.ReadAfterSet | rust/bins/peerbeam-cli/src/commands.rs:243-268 | what any path whatever reads after a set: above, at, below and beside the key |
| ConfigPaths.GetAfterSet | rust/bins/peerbeam-cli/src/commands.rs:243-268 | reading the key just set gives the value set |
| ConfigPaths.SetOfCurrentIsIdentity | rust/bins/peerbeam-cli/src/commands.rs:251-268 | setting the current value changes nothing |
| ConfigPaths.LastSetWins | rust/bins/peerbeam-cli/src/commands.rs:251-268 | of two sets of one key the last wins |
| ConfigPaths.UnrelatedSetsCommute | rust/bins/peerbeam-cli/src/commands.rs:251-268 | sets at keys neither of which extends the other commute |
| SingleFlight.AtMostOneInFlight | rust/bins/peerbeam-cli/src/chat.rs:280-307 | in every interleaving at most one work future is alive |
| SingleFlight.FlagMeansOutstandingIff | rust/bins/peerbeam-cli/src/chat.rs:283-286 | the flag is set exactly while one is outstanding, iff no task was lost before its first poll |
| SingleFlight.ClearedLetsNextIn | rust/bins/peerbeam-cli/src/chat.rs:298-304 | after a guard drops, whether the work returned or panicked, the next call wins |
| SingleFlight.LaterCallCanWinIff | rust/bins/peerbeam-cli/src/chat.rs:283-305 | in every reachable state some way on leads to a winning call iff no winning call's task was lost before its guard |
| SingleFlight.LeakIsForever | rust/bins/peerbeam-cli/src/chat.rs:293-305 | a task lost before its first poll disables every later call |
| Watcher.FolderWatch.Observe | rust/bins/peerbeam-cli/src/watch.rs:55-107 | a file is sent at its first observation that repeats the size it was last seen with, never if it was there at the start, and the counter stays in range |
| Watcher.FolderWatch.constructor | rust/bins/peerbeam-cli/src/watch.rs:86-94 | what is there at the start counts as sent unless asked otherwise |
| Watcher.StepRemembers | rust/bins/peerbeam-cli/src/watch.rs:26-72 | the table holds for each path exactly what its whole history says about the next observation |
| Watcher.OtherPathsHaveNoEffect | rust/bins/peerbeam-cli/src/watch.rs:86-107 | whether a path is sent depends on its own observations only |
| Watcher.ConsecutiveScansIff | rust/bins/peerbeam-cli/src/watch.rs:10-16 | a sent file was unchanged across two consecutive scans iff the earlier one saw it at all |
| Watcher.AbsenceIsNotNoticed | rust/bins/peerbeam-cli/src/watch.rs:102-107 | a file gone for one scan and back at the same size is sent |

## Left out

- FileTree.Represents: a foreign file whose name reads as a key but is not what the store would write for it, or whose bytes do not open, is not part of a tree that stands for records; `Get` and `List` are stated for any tree, and there such a file is read or refused as the code does.
- AppStore.FsAppStore.List: two foreign names that read as one key (`4a` and `4A`) are listed side by side, but which comes first is not said.
- Names that are not UTF-8 and symbolic links.
- IdentityConfluence.IdentityIsConfluentIff: stated for streams that never lose the device nor report it with a blank name or a zero port; a Lost hands the identity to whoever reports next, at a moment the interleaving chooses.
- Confluence.AddressesDoNotMatterEither: stated until the device's first Lost; after that the list starts again at a moment the interleaving chooses.
- ConfigPaths.Config.SetPath: the tree is a value, so the objects on the way to the leaf are rebuilt where the program mutates them in place; aliasing is not captured.
- Durability: fsync ordering and what a power loss does to bytes already written; a crash ends a process, and files keep what was written to them.
- File permissions, the Windows creation mode of a temporary, and the length of the back-off between rename attempts.
- The cipher and the nonce source: any sound pair of sealing and opening functions will do, and sealing may fail.
- The 64-bit wrap of the temporary counter, and case-insensitive file systems.
- `snapshot`'s ordering, which one library sort settles.
- The async driver around the store (`DeviceManager`): which events arrive when is what the run theorems quantify over.
- The folder scan itself: each scan is an arbitrary listing with distinct paths.
- Sending, and what happens when a send fails: the watcher does not retry, and the model ends at the decision.
- Panics outside the guarded task's work and its spawning, and memory orderings of the shared flag: its operations are atomic steps.
- Sessions, QUIC, chat, trust, groups, notes, folder sync, update and the Flutter frontends.
