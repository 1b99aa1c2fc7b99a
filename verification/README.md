# Models of the SCBL launcher, Route Guard, control plane and hooks

This project models the stateful mechanisms of SCBL and proves what they keep over every run:

- the launcher's transactional component installer, with faults and crashes at every atomic file operation;
- the Route Guard's packet path: header codec, NAT table, socket-owner resolution and strict isolation;
- the session protocol between launcher and Route Guard: game monitor, heartbeat file and fail-open guard;
- the control plane: authoritative session selection, heartbeat registry, request signing and clock-skew recovery,
  and the rejection log;
- the hooks' invite ids and private-join bridge;
- the launcher's `scbl.toml` printer and reader, its server-path display filter and component version progression.

Objects that the source updates in place are classes whose methods are proved against functions on values; the
theorems about runs are lemmas about those functions. Loops over maps and sets, whose order Go, Python and C# leave
open, pick elements in an arbitrary order. Faults, external helpers and process liveness are arbitrary choices.

## How the model is organised

| files | subject |
|---|---|
| `Common.dfy`, `Text.dfy` | options, octets, ports, PIDs; trimming and letter case |
| `FileSystem.dfy`, `Slots.dfy`, `InstallSteps.dfy`, `Installer.dfy`, `CrashRecovery.dfy`, `InstallCollisions.dfy` | component installer |
| `Packet.dfy`, `NatTable.dfy`, `Owners.dfy`, `RouteGuard.dfy`, `RouteGuardTraces.dfy`, `RouteGuardExamples.dfy` | Route Guard data plane |
| `GameMonitor.dfy`, `GameMonitorRuns.dfy`, `RouterSession.dfy`, `SessionGuard.dfy`, `SessionProtocol.dfy` | session protocol |
| `GameSessions.dfy`, `Registry.dfy`, `Signing.dfy`, `AuthLog.dfy` | control plane |
| `InviteIds.dfy`, `JoinBridge.dfy` | hooks |
| `Toml.dfy`, `TomlRoundTrip.dfy`, `PathDisplay.dfy`, `Versions.dfy` | launcher text and display logic |

Packets follow RFC 791 section 3.1, RFC 9293 section 3.1 and RFC 768; escapes follow "String" of TOML v1.0.0.

## What the proofs brought to light

- Crash recovery works file by file. A crash between two commits followed by recovery alone leaves one file new, with
  its old content gone, and the next one old (`CrashRecovery.RecoveryCanLeaveMixedGroup`), although the class comment
  speaks of one transaction for the whole group. Recovery undoes the group exactly when no target already held its new
  content (`CrashRecovery.RecoveryUndoesGroupIff`). A fault-free retry always completes the group.
- The source checks only for equal targets. All-or-nothing is proved for groups whose paths do not collide otherwise
  and whose sources are not among the other paths; a file may be its own source. A target that is another file's
  temporary or backup path costs a file: a group that is all new is installed completely exactly when there is none
  (`InstallCollisions.InstallWithoutFaults`). With two targets x and x.component-backup the install returns normally and
  the second file is gone (`InstallCollisions.InstallCollidingPair`).
- An update that changes the session throws when the heartbeat file cannot be replaced, and nothing in the monitor's
  loop catches that. A file locked while the game exits ends the monitor for good: the session is not stopped
  (`GameMonitorRuns.LockedFileHidesExit`) or the launch never given up (`GameMonitorRuns.LockedFileHidesDeadline`).
  The guard fails open all the same, with the next heartbeat written (`SessionProtocol.GoneGameFailsOpen`).
- A reply is attributed by the client address, although rewritten flows are bound to another one. If another process
  holds that end, say a UDP socket on 0.0.0.0 and the same port, the reply goes there unrestored
  (`RouteGuardExamples.StrangerTakesReply`); `RouteGuardTraces.ReplyIsForGameIff` says exactly when.
- A reply to a rewritten broadcast reaches the game with the broadcast address as its source, not the address of the
  host that answered (`RouteGuardExamples.BroadcastHidesPeer`); `RouteGuardTraces.RestoredSourceAnsweredIff` says when.
- The hash of a version is fixed only while its text stays the same: along any progression of versions whose text
  changes somewhere the hash may change there (`Versions.HashCanChangeIff`). So a detour through another spelling, such
  as 1.0, 1.0.0, 1.0, changes the content of a version (`Versions.RespellingCanChangeHash`).
- The comment in the packet loop says that later fragments expose no TCP or UDP header and pass. The parser does not
  look at the fragment offset: their payload is read as ports (`Packet.FragmentsParseIff`). A game's later fragments
  count as another process's unless that happens to name the game (`RouteGuardExamples.LaterFragmentPassesIff`).
- A failed heartbeat read expires the guard at once when the last heartbeat was stamped in the future
  (`SessionGuards.ExpiresIffUnhealthy`).

## Model

| member | source | states |
|---|---|---|
| `FileSystem.Disk.TryDelete` | client/ScblPublicLauncher/Services/TransactionalComponentInstaller.cs:159-167 | the file is gone, or nothing changed and a fault was hidden |
| `FileSystem.Disk.Copy` | client/ScblPublicLauncher/Services/TransactionalComponentInstaller.cs:59 | a copy may be cut anywhere, leaving any content at its destination and nothing else changed |
| `InstallSteps.ValidateInstall` | client/ScblPublicLauncher/Services/TransactionalComponentInstaller.cs:135-144 | accepts exactly installs whose source exists with the expected hash and whose paths and hash are well formed, reads permitting |
| `Text.Sha256Iff` | client/ScblPublicLauncher/Services/TransactionalComponentInstaller.cs:141-156 | exactly the texts of 32 bytes in hexadecimal, in either case, pass for a hash |
| `Text.EqualIgnoringCaseIff` | client/ScblPublicLauncher/Services/TransactionalComponentInstaller.cs:146-151 | hashes are equal exactly when they differ at most in the case of letters |
| `InstallSteps.RecoverTarget` | client/ScblPublicLauncher/Services/TransactionalComponentInstaller.cs:109-133 | every atomic step keeps whatever original the slot kept; without hidden faults it ends in the recovered slot |
| `InstallSteps.PrepareOne` | client/ScblPublicLauncher/Services/TransactionalComponentInstaller.cs:45-66 | leaves the target installed, or staged with a verified new file beside an untouched target, through safe states only |
| `InstallSteps.CommitOne` | client/ScblPublicLauncher/Services/TransactionalComponentInstaller.cs:69-77 | from a staged slot every state can be undone, and success leaves the new content with the old one in the backup |
| `InstallSteps.RollbackOne` | client/ScblPublicLauncher/Services/TransactionalComponentInstaller.cs:84-104 | from any undoable slot every state stays undoable, and without hidden faults the original is back and nothing beside it |
| `Installer.Install` | client/ScblPublicLauncher/Services/TransactionalComponentInstaller.cs:27-107 | all or nothing for the group, crash safety of every intermediate state, refusal of duplicate targets, success whenever nothing faults, and, for any group, exactly when a run without faults returns and with which disk |
| `Installer.UndoableState` | client/ScblPublicLauncher/Services/TransactionalComponentInstaller.cs:68-105 | every disk state of the commit and rollback loops is crash-safe for the whole group |
| `Installer.FinishingState` | client/ScblPublicLauncher/Services/TransactionalComponentInstaller.cs:79-80 | while backups are deleted every target is installed, and at the end nothing is left beside them |
| `Installer.RolledBackGroup` | client/ScblPublicLauncher/Services/TransactionalComponentInstaller.cs:82-106 | after a quiet rollback every file handled before the failing one is exactly as recovery leaves it, leftover backups included, and those after it are untouched |
| `Slots.StagedIsSafe` | client/ScblPublicLauncher/Services/TransactionalComponentInstaller.cs:15-17 | what a slot kept before preparation it keeps through commit, rollback and cleanup |
| `CrashRecovery.CrashesLoseNothing` | client/ScblPublicLauncher/Services/TransactionalComponentInstaller.cs:15-17 | after any number of attempts, each crashed at any step, every slot still keeps whatever it kept at the start |
| `CrashRecovery.RecoveryAfterCrashes` | client/ScblPublicLauncher/Services/TransactionalComponentInstaller.cs:109-133 | from a clean start recovery after any crashes finds exactly the old or the new content |
| `CrashRecovery.InstallDespiteCrashes` | client/ScblPublicLauncher/Services/TransactionalComponentInstaller.cs:15-17 | faulty attempts crashed at the given steps leave such a chain of states, and a quiet retry from its end installs the whole group |
| `CrashRecovery.RecoveryUndoesGroupIff` | client/ScblPublicLauncher/Services/TransactionalComponentInstaller.cs:109-133 | recovery gives back the whole old group exactly when no target already held its new content |
| `CrashRecovery.RecoveryCanLeaveMixedGroup` | client/ScblPublicLauncher/Services/TransactionalComponentInstaller.cs:69-77 | a crash after the committing step of the first of two staged files, and recovery, leave a mixed group |
| `InstallCollisions.SiblingsAreGone` | client/ScblPublicLauncher/Services/TransactionalComponentInstaller.cs:68-80 | in any group on any disk, a run without faults that returns leaves nothing at the sibling paths of a prepared file, not even another file of the group |
| `InstallCollisions.InstallWithoutFaults` | client/ScblPublicLauncher/Services/TransactionalComponentInstaller.cs:27-107 | a group that is all new is installed completely by a run without faults exactly when no target is another file's temporary or backup path |
| `InstallCollisions.NewContentHidesCollision` | client/ScblPublicLauncher/Services/TransactionalComponentInstaller.cs:119-132 | with content that is new already a colliding pair can be installed completely |
| `InstallCollisions.SecondFileIsLost` | client/ScblPublicLauncher/Services/TransactionalComponentInstaller.cs:72-80 | with the second target at the backup path of the first, a run without faults returns and the second file is gone |
| `InstallCollisions.InstallCollidingPair` | client/ScblPublicLauncher/Services/TransactionalComponentInstaller.cs:27-81 | the installer returns normally from such a group, with the second file missing |
| `Packet.ParsePacket` | client/scbl-process-router/main.go:501-521 | a view exists exactly for IPv4 TCP/UDP packets with a full header, and agrees with the bytes |
| `Packet.ParseReadsLayout` | client/scbl-process-router/main.go:501-521 | a packet laid out as RFC 791 says parses to the header it was laid out with |
| `Packet.ParsedIsLayout` | client/scbl-process-router/main.go:501-521 | a packet that parses is laid out like that |
| `Packet.FragmentsParseIff` | client/scbl-process-router/main.go:501-521 | the fragment offset is never looked at: any fragment of at least eight payload bytes parses, with its payload as ports |
| `Packet.PacketMeta.SetSrcIP` | client/scbl-process-router/main.go:523 | the buffer changes at the source address only and still parses to the updated view |
| `Packet.PacketMeta.SetDstPort` | client/scbl-process-router/main.go:529-532 | the buffer changes at the destination port only and still parses to the updated view |
| `Packet.EditedHeader` | client/scbl-process-router/main.go:501-532 | parsing after a setter gives the old header with that field replaced |
| `Packet.ChecksumsDoNotParse` | client/scbl-process-router/main.go:465-479 | recalculating checksums never changes the parsed header |
| `Packet.RangeIsNet` | client/scbl-process-router/main.go:71-87 | an address is in the CIDR exactly when it lies between the ends that ipv4Range returns |
| `Packet.InNetIffPrefix` | client/scbl-process-router/main.go:71-87 | an address is in a network of prefix length n exactly when its first n bits are those of the network |
| `NatTables.NatTable.Put` | client/scbl-process-router/main.go:568-572 | the mapping is stored under its own protocol, ports and the reply address, replacing any other |
| `NatTables.NatTable.Get` | client/scbl-process-router/main.go:578-586 | the exact reply address first, then the wildcard |
| `NatTables.NatTable.CleanupTick` | client/scbl-process-router/main.go:588-606 | removes exactly the mappings older than the TTL, in whatever order the map is walked |
| `Owners.BuildTcpPortIndex` | client/scbl-process-router/main.go:980-986 | the index lists, once each, exactly the non-zero PIDs owning a socket on the port, for every map order |
| `Owners.BuildUdpPortIndex` | client/scbl-process-router/main.go:988-996 | the same for UDP, where an entry lists several owners |
| `Owners.PreferredIsTarget` | client/scbl-process-router/main.go:949-966 | the choice is a listed owner, and a target whenever some listed owner is one |
| `Owners.TargetDecisionIgnoresMapOrder` | client/scbl-process-router/main.go:898-947 | which packets count as the game's does not depend on map order |
| `Owners.TcpFallbackMeansOwnership` | client/scbl-process-router/main.go:906-911 | the port fallback names a target exactly when a target owns a socket on the port, and never a stranger |
| `Owners.UdpFallbackMeansOwnership` | client/scbl-process-router/main.go:998-1004 | the same for UDP |
| `Owners.OwnedAtOtherAddressIff` | client/scbl-process-router/main.go:898-947 | a flow owned by a target at one local address is owned by a target at another exactly when no other process holds that other end |
| `Owners.OwnerResolver.Refresh` | client/scbl-process-router/main.go:1012-1054 | targets become the session's PIDs; an unreadable table keeps its old entries and index |
| `Owners.OwnerResolver.Resolve` | client/scbl-process-router/main.go:871-947 | the owner by exact entry, wildcard address or port; an unknown owner asks for a refresh while a game runs |
| `RouteGuard.Guard.Outbound` | client/scbl-process-router/main.go:253-293 | the outbound verdict, the bytes and the NAT entry it leaves, and the drop count |
| `RouteGuard.Guard.Inbound` | client/scbl-process-router/main.go:294-317 | the inbound verdict, the restored bytes and the drop count |
| `RouteGuard.Guard.Handle` | client/scbl-process-router/main.go:230-331 | one turn of the loop is the decision function up to checksum bytes, and exactly the drops are counted |
| `RouteGuardTraces.TableStaysWellKeyed` | client/scbl-process-router/main.go:255-281 | over every trace keys repeat the fields of their mapping and remote addresses are in the CIDR |
| `RouteGuardTraces.RestoringTouchesAddressesOnly` | client/scbl-process-router/main.go:305-312 | the restoring port writes are no-ops |
| `RouteGuardTraces.TracesAreIsolated` | client/scbl-process-router/main.go:230-331 | over every trace game packets leave only into the CIDR, from the client address, pinned, and byte-identical if that was their source; they arrive only from the CIDR; all others pass byte-identical |
| `RouteGuardTraces.ChangesGetChecksums` | client/scbl-process-router/main.go:322-327 | no packet leaves with changed bytes and old checksums, and only rewritten or restored ones get new checksums |
| `RouteGuardTraces.MappingLivesUntilTick` | client/scbl-process-router/main.go:588-606 | a mapping nobody rewrites is present exactly until the first tick more than the TTL later |
| `RouteGuardTraces.MappingIsLastWrite` | client/scbl-process-router/main.go:568-606 | over every trace a key has a mapping exactly when the last event that wrote it still lasts, and it is that event's |
| `RouteGuardTraces.RestoredToLastSender` | client/scbl-process-router/main.go:303-312 | whatever flows share a key, a restored reply goes to the sender of the last event that wrote its mapping and comes from that event's destination |
| `RouteGuardTraces.UnmappedPassesUntouched` | client/scbl-process-router/main.go:294-328 | over every trace an admitted packet for the game for which no lasting event wrote a mapping is delivered exactly as it came |
| `RouteGuardTraces.ReplyIsForGameIff` | client/scbl-process-router/main.go:920-947 | the reply to the game's packet counts as the game's exactly when no other process holds the client's end of the flow |
| `RouteGuardTraces.ReplyIsRestored` | client/scbl-process-router/main.go:253-312 | the reply to a rewritten unicast flow gets the original address back with every other non-checksum byte unchanged, unless another process holds the client's end of the flow: then it passes as it came |
| `RouteGuardTraces.BroadcastReplyShowsBroadcastSource` | client/scbl-process-router/main.go:273-311 | a reply to a rewritten broadcast is delivered with the broadcast address as source |
| `RouteGuardTraces.RestoredSourceAnsweredIff` | client/scbl-process-router/main.go:303-312 | a restored reply shows the host that answered exactly when that host's own mapping is found or the wildcard mapping is that host's |
| `RouteGuardExamples.StrangerTakesReply` | client/scbl-process-router/main.go:932-947 | with another process on the wildcard address of the game's port, a rewritten packet's reply goes to that process unrestored |
| `RouteGuardExamples.BroadcastHidesPeer` | client/scbl-process-router/main.go:271-311 | a broadcast by the game and its reply, seen from an empty table: the peer's address is lost |
| `RouteGuardExamples.ExchangeExists` | client/scbl-process-router/main.go:501-521 | packets, socket tables and PIDs that behave in these two ways |
| `RouteGuardExamples.LaterFragmentPassesIff` | client/scbl-process-router/main.go:242-293 | a later fragment sent out of the network passes exactly when it is too short to parse or its payload, read as ports, names no socket of the game |
| `RouteGuardExamples.LaterFragmentEscapes` | client/scbl-process-router/main.go:242-293 | the first fragment of a game's datagram is dropped while a later one leaves the network |
| `GameMonitors.GameMonitor.DropDead` | client/ScblPublicLauncher/MainWindow.GameProcessMonitor.cs:237-260 | exactly the owned processes found alive remain owned |
| `GameMonitors.NewMatching` | client/ScblPublicLauncher/Services/GameProcessSessionService.cs:25-96 | exactly the matching processes that started in time and are not excluded, by start and then by PID |
| `GameMonitors.GameMonitor.Turn` | client/ScblPublicLauncher/MainWindow.GameProcessMonitor.cs:57-201 | one turn of the loop, cut short by a throwing update, takes the monitor's state to the next one of the specification |
| `GameMonitorRuns.PublishesOnlyItsOwn` | client/ScblPublicLauncher/MainWindow.GameProcessMonitor.cs:57-139 | published PIDs are the initial one or adopted ones; adopted ones are distinct and none ran before the launch |
| `GameMonitorRuns.ConfirmsOnlyStableProcesses` | client/ScblPublicLauncher/MainWindow.GameProcessMonitor.cs:20-24 | confirmation needs one process alive at every look over 20 seconds, or 4 for a relaunched one |
| `GameMonitorRuns.StableProcessIsConfirmed` | client/ScblPublicLauncher/MainWindow.GameProcessMonitor.cs:66-138 | a process that stays alive is confirmed exactly once it has been watched for 20 seconds, or 4 if it was relaunched |
| `GameMonitorRuns.SeeksIffFirstMissed` | client/ScblPublicLauncher/MainWindow.GameProcessMonitor.cs:65-90 | a launch seeks a relaunched process exactly if some probe has missed the first one |
| `GameMonitorRuns.AdoptsEarliest` | client/ScblPublicLauncher/MainWindow.GameProcessMonitor.cs:93-122 | a turn that seeks a relaunched process adopts the earliest matching one that started no more than two seconds before the launch and was not known |
| `GameMonitorRuns.AdoptsNothingElse` | client/ScblPublicLauncher/MainWindow.GameProcessMonitor.cs:93-122 | no other turn adopts anything |
| `GameMonitorRuns.ConfirmedRun` | client/ScblPublicLauncher/MainWindow.GameProcessMonitor.cs:165-191 | after confirmation the owned set only shrinks and is published as it is; the session ends at exactly the second empty probe unless a change up to then could not be written, and exactly then the monitor is gone |
| `GameMonitorRuns.ConfirmedLaunch` | client/ScblPublicLauncher/MainWindow.GameProcessMonitor.cs:57-191 | every launch that confirms its game and tells the session goes on in that way |
| `GameMonitorRuns.TellsSession` | client/ScblPublicLauncher/MainWindow.GameProcessMonitor.cs:66-168 | an unconfirmed launch has only published updates that tolerate an empty list; a confirmed one last published exactly what it owns |
| `GameMonitorRuns.FaultsIffWriteFails` | client/ScblPublicLauncher/Services/ProcessRouterService.cs:99-113 | a turn is cut short exactly when an update that changes a session still on cannot be written |
| `GameMonitorRuns.SessionOfRun` | client/ScblPublicLauncher/MainWindow.GameProcessMonitor.cs:57-191 | over every run the session is what the monitor's calls made of it, and the monitor is gone exactly when one of them threw |
| `GameMonitorRuns.LockedFileHidesExit` | client/ScblPublicLauncher/MainWindow.GameProcessMonitor.cs:165-191 | a heartbeat file locked while the confirmed game exits: the session is never stopped |
| `GameMonitorRuns.LockedFileHidesDeadline` | client/ScblPublicLauncher/MainWindow.GameProcessMonitor.cs:79-90 | a heartbeat file locked while the first process exits: the launch is never given up |
| `GameMonitorRuns.GivesUpPastDeadline` | client/ScblPublicLauncher/MainWindow.GameProcessMonitor.cs:151-163 | the launch times out exactly at a probe past the deadline that leaves it unconfirmed, no update up to then having failed |
| `RouterSessions.ProcessRouterService.WriteHeartbeat` | client/ScblPublicLauncher/Services/ProcessRouterService.cs:265-307 | the file is replaced as a whole when one of five attempts works, otherwise it is untouched |
| `RouterSessions.ProcessRouterService.BeginSession` | client/ScblPublicLauncher/Services/ProcessRouterService.cs:221-236 | the new session's fields and first heartbeat; the heartbeat loop starts only if that was written |
| `RouterSessions.ProcessRouterService.UpdateGameSession` | client/ScblPublicLauncher/Services/ProcessRouterService.cs:99-118 | a change is kept and written at once, and throws exactly when it cannot be written; no session or no change writes nothing |
| `RouterSessions.ProcessRouterService.OnHeartbeat` | client/ScblPublicLauncher/Services/ProcessRouterService.cs:238-263 | a running loop writes the session's state, and a failed write changes nothing |
| `RouterSessions.ProcessRouterService.StopSession` | client/ScblPublicLauncher/Services/ProcessRouterService.cs:487-525 | the session is cleared, the file deleted if possible, and the generation advanced |
| `SessionGuards.LauncherSessionGuard.Refresh` | client/scbl-process-router/main.go:680-743 | the first readable attempt decides; retries take at most 100 ms; errors leave the state alone |
| `SessionGuards.FirstReadIsFirst` | client/scbl-process-router/main.go:680-697 | what a refresh reads is the earliest readable of its attempts |
| `SessionGuards.LauncherSessionGuard.OnTick` | client/scbl-process-router/main.go:651-674 | a failed refresh expires the guard for good, with its reason and without PIDs |
| `SessionGuards.AssessIsHealth` | client/scbl-process-router/main.go:698-737 | a tick is passed exactly when heartbeat, launcher, session and game look well |
| `SessionGuards.ExpiresIffUnhealthy` | client/scbl-process-router/main.go:651-743 | over every run the guard expires exactly at an unhealthy tick and stays expired with no PIDs |
| `SessionGuards.HoldsWhatWasLastRead` | client/scbl-process-router/main.go:729-741 | over every run a guard that has not expired holds exactly the PIDs that the last snapshot it read lists and that were alive then |
| `SessionGuards.ExpiresInTime` | client/scbl-process-router/main.go:651-743 | with no heartbeat stamped after T it has expired by T + timeout + 250 ms + 100 ms |
| `SessionProtocol.GuardHoldsOneSnapshot` | client/scbl-process-router/main.go:729-742 | over every interleaving the guard's PIDs come from one complete snapshot of its session that this launcher wrote |
| `SessionProtocol.GuardHoldsOnlyTheGame` | client/ScblPublicLauncher/MainWindow.GameProcessMonitor.cs:57-139 | over every interleaving the guard isolates only the launched process and adopted ones |
| `SessionProtocol.MonitorKnowsSession` | client/ScblPublicLauncher/Services/ProcessRouterService.cs:99-113 | an update ends the monitor exactly when the session takes it but cannot write it, and the monitor's picture of the session stays right |
| `SessionProtocol.MonitorFollowsSession` | client/ScblPublicLauncher/Services/ProcessRouterService.cs:99-113 | the same over every interleaving of a launch with heartbeats, guard ticks and the end of the session |
| `SessionProtocol.NewSessionHolds` | client/ScblPublicLauncher/Services/ProcessRouterService.cs:221-236 | a new session holds its processes and flag at once, and beats exactly if its first snapshot was written |
| `SessionProtocol.EndedSessionIsSilent` | client/ScblPublicLauncher/Services/ProcessRouterService.cs:487-525 | over every interleaving nothing but a new session changes the launcher's side or the file once a session has ended |
| `SessionProtocol.FileIsLastWritten` | client/ScblPublicLauncher/Services/ProcessRouterService.cs:238-283 | over every interleaving the file is the complete snapshot of the session at the last act that wrote, with that act's time; every beat of a running loop whose write works is one |
| `SessionProtocol.BeatsKeepGuard` | client/scbl-process-router/main.go:680-725 | over every interleaving a tick that finds, or found before, a heartbeat written within the timeout never expires the guard for its age |
| `SessionProtocol.FlaggedSessionNeverEnds` | client/ScblPublicLauncher/MainWindow.GameProcessMonitor.cs:66-125 | over every interleaving, while the launch's monitor has not confirmed the game and heartbeats are written in time, no PID list ends the guard |
| `SessionProtocol.GoneGameFailsOpen` | client/ScblPublicLauncher/MainWindow.GameProcessMonitor.cs:165-188 | once the launch's monitor has found none of its confirmed game left and said so, the first tick that reads a new snapshot makes the guard fail open, even if writing it failed at first and ended the monitor |
| `GameSessions.CollectRows` | server/scbl_control_plane.py:261-276 | the rows grouped by session and by user, each session with the header of its first row |
| `GameSessions.BuildSession` | server/scbl_control_plane.py:279-285 | participants, addresses and the host's least address, for every order of the set of users |
| `GameSessions.LoadAuthoritativeSessions` | server/scbl_control_plane.py:244-294 | each address gets the playable session that outranks all others with it, and no other address gets one |
| `GameSessions.AuthoritativeIsBest` | server/scbl_control_plane.py:213-214 | an address of any room with a host address, two participants and two addresses gets a session with the most addresses, then the most participants, then the greatest id |
| `GameSessions.OnlyRoomsAreAuthoritative` | server/scbl_control_plane.py:286-289 | only such rooms are given to addresses |
| `GameSessions.FirstRowIsHeader` | server/scbl_control_plane.py:261-276 | the first row of a session stays its header, whatever rows follow |
| `GameSessions.SelectionIgnoresOrder` | server/scbl_control_plane.py:261-294 | where the session id determines the header, the result is the same for every row order |
| `Registry.RuntimeState.Cleanup` | server/scbl_control_plane.py:178-183 | exactly the clients older than the TTL go |
| `Registry.RuntimeState.Upsert` | server/scbl_control_plane.py:185-191 | the client takes its address, and its instance id leaves every other address |
| `Registry.RuntimeState.ActiveClients` | server/scbl_control_plane.py:193-196 | the clients within the TTL, each once, by last octet |
| `Registry.RegistryIsExact` | server/scbl_control_plane.py:173-196 | active are exactly the heartbeats within the TTL that no later one superseded by address or instance |
| `Registry.InstancesAreUnique` | server/scbl_control_plane.py:185-191 | no non-empty instance id is active at two addresses |
| `Signing.CanonicalIsInjective` | server/scbl_control_plane.py:576-578 | two requests share a signed message only if they agree in timestamp, method, path and body |
| `Signing.AcceptedIff` | server/scbl_control_plane.py:747-763 | accepted are exactly the requests with a number within 90 seconds for a timestamp and the mac of their own message, in either case, for a signature |
| `Signing.SignatureOpensOnlyItsRequest` | server/scbl_control_plane.py:576-578 | with a mac that tells messages apart, a signature is refused for any other timestamp, method, path or body |
| `Signing.SignedRequestIsAcceptedIff` | client/ScblPublicLauncher/Services/ControlPlaneService.cs:300-305 | a client-signed request is accepted exactly within 90 seconds of the server's clock, and refused only as clock_skew |
| `Signing.ParsePrint` | server/scbl_control_plane.py:754-757 | the server reads the very timestamp the client printed |
| `Signing.ControlPlaneClient.Send` | client/ScblPublicLauncher/Services/ControlPlaneService.cs:94-187 | at most one retry, for which replies, with which timestamps and clock offset |
| `Signing.RetriesIff` | client/ScblPublicLauncher/Services/ControlPlaneService.cs:121-183 | a second attempt follows exactly a timeout or too-many-requests status, a server error, no answer, and a clock_skew rejection that tells the time |
| `Signing.RetryTimestampError` | client/ScblPublicLauncher/Services/ControlPlaneService.cs:129-130 | the retry's timestamp is off by less than the time on the wire plus two seconds |
| `Signing.SkewedClientRecovers` | client/ScblPublicLauncher/Services/ControlPlaneService.cs:124-134 | after a clock_skew rejection the retry is accepted however wrong the client's clock is |
| `AuthLogs.AuthLog.LogRejection` | server/scbl_control_plane.py:765-782 | rejections are conserved as printed, reported or pending; a line is printed exactly if none of its key was in the last 30 seconds |
| `AuthLogs.PrintingKeepsBalance` | server/scbl_control_plane.py:775-776 | printing a line accounts for all rejections suppressed since the last |
| `InviteIds.InviteIdState.AllocateLocalId` | client/hooks/src/api.rs:44-51 | the greatest free id from the next one down, whenever one is free |
| `InviteIds.InviteIdState.MapServerEvent` | client/hooks/src/api.rs:53-64 | the current id while it is not retired, otherwise a fresh negative one |
| `InviteIds.InviteIdState.RetireLocal` | client/hooks/src/api.rs:70-79 | retires the current id of its event; an unknown or stale id changes nothing |
| `InviteIds.IssuedIdsAreFreshAndPermanent` | client/hooks/src/api.rs:53-68 | a new id was never issued before and resolves to its event forever |
| `InviteIds.DeliveryGivesLiveId` | client/hooks/src/api.rs:53-64 | after any steps a delivery keeps its event's live id, or issues the next number down, which was free |
| `InviteIds.CurrentIdLastsUntilRetired` | client/hooks/src/api.rs:53-79 | no other step, stale retirements included, changes an event's current id |
| `InviteIds.RetiringForcesFreshId` | client/hooks/src/api.rs:70-79 | after retiring, the next delivery issues another id for the same event |
| `InviteIds.ExhaustionTakesAllIds` | client/hooks/src/api.rs:44-51 | ids run out, and allocation could hang, only after 2^63 steps |
| `JoinBridge.Hooks.TryComplete` | client/hooks/src/hooks.rs:357-418 | writes once, only while the armed bridge's exact guard holds and the flag is still clear |
| `JoinBridge.Hooks.Heartbeat` | client/hooks/src/hooks.rs:420-426 | a saturating count per state |
| `JoinBridge.Hooks.OnEnter` | client/hooks/src/hooks.rs:486-508 | an eligible enter arms the bridge and any other enter disarms it |
| `JoinBridge.Hooks.OnUpdate` | client/hooks/src/hooks.rs:578-585 | one update counts and may complete |
| `JoinBridge.StateTracksHistory` | client/hooks/src/hooks.rs:320-426 | the hooks' maps are what the history of events says |
| `JoinBridge.WritesNeverExceedArms` | client/hooks/src/hooks.rs:332-418 | over any interleaving a state's flag is written at most once per arming |
| `JoinBridge.WritesIffFirstDue` | client/hooks/src/hooks.rs:357-418 | over any interleaving the flag is written exactly at the first update since arming that is due, if the flag is still clear |
| `JoinBridge.WritesAreGuarded` | client/hooks/src/hooks.rs:357-398 | every write is for the service and session of a stuck private join, with exact flags, after at least 120 updates of that state |
| `Toml.TomlUnescape` | client/ScblPublicLauncher/MainWindow.xaml.cs:2301-2317 | the loop is the two-state unescape, a trailing backslash kept |
| `Text.TrimSplits` | client/ScblPublicLauncher/MainWindow.xaml.cs:2281 | trimming takes all white space off both ends and nothing else |
| `Toml.UnescapeByPieces` | client/ScblPublicLauncher/MainWindow.xaml.cs:2301-2317 | in any text a plain character stays, a backslash takes the next character with it, and a last one left over stays |
| `Toml.EscapeIsCharacterwise` | client/ScblPublicLauncher/Services/HookConfigService.cs:59-67 | the chain of replacements is one character-wise escape |
| `Toml.UnescapeUndoesEscape` | client/ScblPublicLauncher/MainWindow.xaml.cs:2301-2317 | unescaping an escaped text gives it back, for every text |
| `Toml.ReadScblTomlValues` | client/ScblPublicLauncher/MainWindow.xaml.cs:2275-2299 | the loop reads line by line, by section and greedy quoted match |
| `TomlRoundTrip.ItemIsRead` | client/ScblPublicLauncher/MainWindow.xaml.cs:2281-2296 | every kind of line in the template means to the reader what it was printed for |
| `TomlRoundTrip.PrintedFileReadsBack` | client/ScblPublicLauncher/Services/HookConfigService.cs:19-38 | reading the printed file yields exactly the values printed, under their section-qualified keys |
| `TomlRoundTrip.ValuesAreFound` | client/ScblPublicLauncher/MainWindow.xaml.cs:2243-2247 | no key hides another, so each value is found under its key |
| `PathDisplay.ServerPathDisplay.ApplySample` | client/ScblPublicLauncher/MainWindow.xaml.cs:957-1035 | one sample takes the display's fields to the next state of the filter |
| `PathDisplay.DisplayNeedsThreeSamples` | client/ScblPublicLauncher/MainWindow.xaml.cs:957-1035 | the display changes exactly when the last three samples are one complete route other than the shown one |
| `Versions.CompareComponentVersions` | client/ScblPublicLauncher/Services/ClientComponentUpdateService.cs:254-274 | the first difference of the zero-padded digit runs, with overflow and missing digits refused |
| `Versions.DottedReadsBack` | client/ScblPublicLauncher/Services/ClientComponentUpdateService.cs:256-261 | a version written as numbers joined by dots is read as exactly those numbers |
| `Versions.VersionsAreTotallyPreordered` | client/ScblPublicLauncher/Services/ClientComponentUpdateService.cs:254-274 | the comparison is a total preorder on versions of any lengths |
| `Versions.EqualFrom` | client/ScblPublicLauncher/Services/ClientComponentUpdateService.cs:264-273 | versions compare equal exactly when they agree after padding |
| `Versions.NegativeIffBelow` | client/ScblPublicLauncher/Services/ClientComponentUpdateService.cs:264-273 | the comparison is negative exactly when the first component that differs is lower |
| `Versions.AcceptedIff` | client/ScblPublicLauncher/Services/ClientComponentUpdateService.cs:234-252 | an update is accepted exactly when the candidate is a version, is not lower, and does not bring another hash under the same text |
| `Versions.HashMatchesIff` | client/ScblPublicLauncher/Services/ClientComponentUpdateService.cs:25 | a recorded hash counts exactly if it is 32 bytes in hexadecimal, a final newline aside |
| `Versions.ChainsNeverDecrease` | client/ScblPublicLauncher/Services/ClientComponentUpdateService.cs:234-243 | along a chain of accepted updates no version is lower, at its first difference, than an earlier one |
| `Versions.SameTextKeepsHash` | client/ScblPublicLauncher/Services/ClientComponentUpdateService.cs:244-251 | while the version text stays the same a valid hash stays the same |
| `Versions.HashCanChangeIff` | client/ScblPublicLauncher/Services/ClientComponentUpdateService.cs:244-251 | a sequence of version texts lets a valid hash change along an accepted chain exactly when it never decreases and its texts are not all the same |
| `Versions.RespellingCanChangeHash` | client/ScblPublicLauncher/Services/ClientComponentUpdateService.cs:244-251 | for every dotted version a detour through another spelling of it lets the hash change |

## Left out

- Path normalisation: targets are taken as full, case-folded paths, so two spellings of one path are one path.
- SHA-256 and HMAC-SHA256 are arbitrary functions to text; "installed" means "has the expected hash".
- UTF-8: texts stand for their encodings, and texts that cannot be encoded are not considered.
- Letter case beyond ASCII, in hashes, keys, routes and version texts.
- WinDivert, IP Helper, process creation and liveness: socket tables, PIDs and packets are arbitrary inputs.
- The byte layout of the WinDivert address; interface indices are taken to fit 32 bits.
- Slices that alias the receive buffer: each packet has an array of its own.
- Start, readiness and automatic restart of the router process in `ProcessRouterService`; a restart shows up in the
  protocol as another heartbeat or another session.
- Cancelling the monitor, exceptions of the UI callbacks it waits for, and runtime validation after confirmation.
- The steps of replacing the heartbeat file before its rename: a failure there counts as five failed renames.
- A run of heartbeats that a new session has cancelled but that is still inside one write.
- The order of PIDs within a snapshot and the JSON text of the heartbeat file; a read yields a whole document or nothing.
- SQL, HTTP, JSON, regular-expression extraction of overlay addresses: joined rows and their address sets are inputs.
- HTTP client pooling and failure-log suppression in `ControlPlaneService`.
- Python's int() beyond plain decimal text with an optional minus sign.
- Game memory other than the completion flag, and the game's own hooked functions.
- Single-file variants of the installer, the updater's package copy, UI, diagnostics and packaging.
- Statistics, logging texts and health snapshots.
