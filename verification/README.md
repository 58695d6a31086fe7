# claude-cowork-service: a verified model

claude-cowork-service lets Claude Desktop run its sessions on Linux, either directly on the host
(the native backend) or in a virtual machine (the KVM backend). This project models the parts of
it where mistakes are hard to see, and proves what they promise.

- **Concurrent protocols.** Each is a system of steps, one per critical section, channel operation
  or system call, in any interleaving, with any number of callers; `After(run)` is the state after
  a run, and every theorem is about every run. The critical sections that decide or loop are also
  methods of a class whose fields are the source's fields; both are stated by the same functions.
  - `GuestBridge`, `BridgeProtocol`, `BridgeCalls`: requests to the guest, replies, timeouts,
    disconnects, `Close`; what a call returns with and why.
  - `VfsClient`, `MountHelper`, `VfsProtocol`, `VfsBind`, `VfsStop`: the client of the mount helper and
    the helper, two processes that both cache binds, joined by two pipes; what a bind returns with and
    why, and what a stop leaves mounted.
  - `KvmBackend`, `VmLifecycle`, `VmDirectories`, `VmStarts`: `StartVM`, `StopVM`, `IsRunning` and
    watchdogs over one backend, what becomes of the session directories, and which session runs.

  Beside safety over all runs stand continuations: from every reachable state that allows it, a run
  is given in which the call, the start or the bind comes to what it promises.
- **Framed RPC.** `Framing`: length-prefixed messages on a byte stream that delivers what it likes.
  `PipeServer`: the read loop and handlers that answer concurrently on one connection.
- **Path text.** `Strings`, `Replacement`, `PathRemap`, `SessionPrefix`, `NativeProcess`: the passes of
  `ReplaceAll` over a process's input and output. `CoworkPrefix`: the repair of repeated prefixes.
  `LexicalPath`, `MountPaths`: `filepath.Clean` and `Join` by components, and the two resolvers of
  mount paths.
- **Resume.** `Sorting`, `Transcript`, `Workspace`, `SpawnCwd`: the working directory of a spawn, and
  what native and KVM spawns do to stored transcripts.
- **Accounting and repair.** `DiskMgmt`, `DiskTheorems`: sizes by owner, deletion, pruning.
  `QueueRepair`, `QueueTheorems`: the session doctor's repair of a queue file.

## What the code does not promise

Each of these is a lemma with the input or the run that shows it, next to the exact condition
under which the promise holds.

- The session pass over a process's input is not undone by the pass over its output when the
  session's name begins the path of the data directory, as in a session `home` under `/home/...`
  (`SessionPrefix.SessionPassUndoneIff`).
- The rewriting of input can depend on the order of a map: it does exactly when one mount's name
  begins another's and the rest of the name is not what the inner host path adds to the outer one
  (`NativeProcess.InputOrderIff`).
- With the root as home the KVM resolver rejects what the native one accepts (`MountPaths.RootHome`).
- A bind that reaches the mount helper after a stop request is carried out, and is never unbound. The
  cache stays empty exactly when the helper has ceased to read, or its input is closed and holds no
  bind it could carry out (`VfsStop.LateBindIsLeftMounted`, `VfsStop.StopStaysEmptyIff`).
- The helper's cache is keyed by spelling, so a path with a slash added is mounted a second time
  (`MountHelper.AnotherSpellingMountsAgain`). Two spellings share a mount point exactly when their
  components do, so clean relative paths never clash (`MountHelper.SameTargetIff`,
  `MountHelper.CleanTargetsDiffer`).
- A runtime whose QEMU dies while the start that launched it is still in flight is taken by another
  start and dropped, with its helper and bridge still up (`VmLifecycle.RuntimeCanBeLost`).
- The cleanup of a stopped runtime can remove the session directory of a live one of the same
  session (`VmDirectories.CleanupCanRemoveLiveDirectory`). A start keeps its directory, whatever else
  happens, exactly when no cleanup of its session is pending when it makes it
  (`VmDirectories.DirectoryKeptIff`).
- The guest's reader takes a stream that ends right after a header for a clean close, although a
  message is missing; the comment on `readFramed` promises `io.EOF` for a clean close
  (`Framing.CleanCloseIff`).
- A session without an eligible mount keeps its directory, and its transcript is not looked for
  (`SpawnCwd.ChosenCwdHoldsTranscriptIff`).
- Deleting a backup by its own name is accepted and takes its bytes off the session that owns it
  (`DiskTheorems.DeletionAgreesIff`, `DiskTheorems.BackupDeletionChargesOwner`).
- An age limit of more than 9223372036 seconds wraps around (`DiskTheorems.CutoffExactIff`).
- Removing synthetic queue entries can break the chain of parents that diagnosis checks
  (`QueueTheorems.ChainSurvivesIff`).

## Model

| member | source | states |
|---|---|---|
| GuestBridge.Bridge.TakePending | vm/bridge.go:295-300 | the channel found for an id leaves `pending` in the same critical section |
| GuestBridge.Bridge.SendAndClose | vm/bridge.go:313-314 | on a channel that can be sent to: it then holds exactly the reply and is closed |
| GuestBridge.Bridge.HandleMessage | vm/bridge.go:243-323 | which messages are events and under what name, which answer a pending call and with what, and that all others change nothing |
| GuestBridge.Bridge.Flush | vm/bridge.go:176-181 | in any order of the map every pending channel is closed once and `pending` is empty |
| BridgeProtocol.KeepAll | vm/bridge.go:122-370 | every step of callers, reader and `Close` keeps the invariant on ids, pending entries, channels and connections |
| BridgeProtocol.Reachable | vm/bridge.go:122-370 | the invariant holds in every state of every run with fewer than 2^64 ids |
| BridgeProtocol.ChannelsNeverFault | vm/bridge.go:295-314 | no reply channel is sent to twice, while full or after its close, and none is closed twice |
| BridgeProtocol.FlushLeavesNothingBehind | vm/bridge.go:176-181 | after a connection's flush no request written on it is pending, and a call still waiting finds its channel closed |
| BridgeProtocol.RepliesMatch | vm/bridge.go:291-316 | a delivered reply came from a message that carries the call's own id |
| BridgeProtocol.DisconnectedMeansUnanswered | vm/bridge.go:355-359 | a call reports a disconnect only when no reply was sent to it, and a sent reply is received |
| BridgeProtocol.OutcomeIsFinal | vm/bridge.go:328-370 | a call that has returned keeps its one outcome for the rest of the run |
| BridgeProtocol.EveryCallEnds | vm/bridge.go:328-370 | whatever else happens a call makes at most seven steps, and it has returned exactly when none of its steps is enabled |
| BridgeProtocol.NothingLeftPending | vm/bridge.go:336-370 | every pending id belongs to a call that has not returned, so once all have returned nothing is pending |
| BridgeProtocol.OneConnection | vm/bridge.go:142-151 | nothing is installed when a connection is accepted, and at most one descriptor is open |
| BridgeCalls.EveryOutcomeHasItsCause | vm/bridge.go:328-370 | over any run a call reports no connection only if there was none or the bridge was down, a reply only as a response of the guest to its id says it, a disconnect only after a flush, and a failed write or a timeout only after its own |
| BridgeCalls.NewCallIsAnswered | vm/bridge.go:291-362 | from every reachable state with the guest connected a new call can run to an answer, with the result or the error text of the response to its id, and leaves nothing pending |
| BridgeCalls.NewCallIsRefused | vm/bridge.go:329-334 | without a connection, or while not connected, a new call is refused at once |
| BridgeCalls.ConnectedIffServing | vm/bridge.go:153-166 | `connected` holds exactly while the loop serves a connection, and the loop ends only after `Close` |
| BridgeCalls.Connects | vm/bridge.go:139-155 | a guest that connects while the loop accepts is served |
| BridgeCalls.Breaks | vm/bridge.go:164-181 | a connection that breaks is cleared away, every call pending on it can receive the disconnect, and the loop accepts again |
| BridgeCalls.NothingWrittenOnceDropped | vm/bridge.go:190-200 | after `Close` the bridge holds no connection and nothing can be written on the one it held |
| BridgeCalls.CloseEndsTheLoop | vm/bridge.go:127-200 | from a served connection `Close` can end the loop, with nothing open or pending |
| VfsClient.Client.TakePending | vm/vfs.go:182-189 | the channel found for a response leaves `pending` at once |
| VfsClient.Client.RejectPending | vm/vfs.go:137-144 | in any order of the map every pending call gets the exit reply, its channel is closed, and `pending` is empty |
| VfsClient.Client.FireReady | vm/vfs.go:170-176 | the ready channel is closed the first time only |
| MountHelper.Helper.DoBind | vm/helper.go:267-325 | the answer to a bind, branch by branch, and what it leaves cached and mounted |
| MountHelper.Helper.DoUnbind | vm/helper.go:327-344 | only a valid cached path is unbound |
| MountHelper.Helper.DoStop | vm/helper.go:346-362 | the first stop unbinds each cached path once and empties the cache, in any order; later ones do nothing |
| MountHelper.BindKeeps | vm/helper.go:267-325 | a bind keeps the ledger of mounts, and a positive answer means the path is cached or was passed over |
| MountHelper.StopKeeps | vm/helper.go:346-375 | a stop keeps the ledger, and the first one leaves nothing cached |
| MountHelper.ValidIff | vm/helper.go:253-265 | the valid paths are the relative ones that do not climb out of the shared root, and which error the others get |
| MountHelper.BindOutcomes | vm/helper.go:281-325 | a bind of valid paths mounts exactly when the source is or becomes a directory and every later step works, and is passed over exactly when the source is something else |
| MountHelper.MissingSourceIff | vm/helper.go:283-298 | a missing source is made for writable modes and for no other |
| MountHelper.SameTargetIff | vm/helper.go:253-265 | two valid spellings name one mount point exactly when their components below the shared root are the same |
| MountHelper.AnotherSpellingMountsAgain | vm/helper.go:276-281 | a bound path with a slash added has the same mount point and is bound again on top of it |
| MountHelper.CleanTargetsDiffer | vm/helper.go:253-265 | different clean relative paths have different mount points |
| VfsProtocol.KeepAll | vm/vfs.go:131-308 | every step of client and helper keeps the invariant on calls, pipes, caches and mounts |
| VfsProtocol.Reachable | vm/vfs.go:131-308 | the invariant holds in every state of every run with fewer than 2^64 ids |
| VfsProtocol.BindAgreement | vm/vfs.go:253-277 | until the helper stops, what the client has cached the helper has bound or passed over; afterwards it was bound once |
| VfsProtocol.MountedAtMostOnce | vm/helper.go:276-318 | over a run, before a stop, a path's mounts are the cached one and those whose remount failed |
| VfsStop.EachMountPointOnce | vm/helper.go:276-318 | a run that binds clean relative paths mounts each mount point under one spelling, and before a stop just once unless a read-only remount failed |
| VfsStop.StopStaysEmptyIff | vm/helper.go:346-362 | once a stop has emptied the cache it stays empty, whatever follows, exactly when the helper reads no more, or its input is closed without a bind that it could carry out |
| VfsStop.LateBindIsNeverUnbound | vm/helper.go:242-244 | a bind carried out after the stop is cached in every later state |
| VfsStop.LateBindIsLeftMounted | vm/helper.go:242-244 | a run that ends with the helper finished and a late bind still mounted |
| VfsProtocol.ChannelsNeverFault | vm/vfs.go:131-206 | with two parties that send, no send blocks or repeats, no channel is closed twice, and `ready` once |
| VfsProtocol.ExitReachesEveryCall | vm/vfs.go:131-145 | after the exit watcher no waiting call is left to its timer |
| VfsBind.EveryOutcomeHasItsCause | vm/vfs.go:208-277 | over any run a bind that succeeds or hits the cache is cached, and a call that does not has been refused by its path, its write, its timer, a negative answer or the exit |
| VfsBind.BindIsDecided | vm/vfs.go:253-277 | a bind written to a helper at rest succeeds and is cached exactly when the helper did not reject it |
| VfsBind.BindGoesThrough | vm/vfs.go:253-277 | from every reachable state with open pipes and a helper that reads, a bind of valid paths can come to success, whatever is under way, and both sides then have it cached |
| VfsBind.CachedBindEnds | vm/vfs.go:254-258 | a bind of a cached path ends at once and sends nothing |
| VfsBind.ReadyWasSaid | vm/vfs.go:168-177 | the client takes the helper for ready only after the helper said so |
| VfsBind.ReadyComesThrough | vm/vfs.go:168-177 | and once it has said so, can come to do so |
| VfsProtocol.RepliesMatch | vm/vfs.go:235-240 | a call fails only on a negative answer to its own request, or on the exit once the helper is gone |
| KvmBackend.Backend.TakeExited | vm/backend.go:1142-1150 | the runtime is taken exactly when it was started and its QEMU no longer runs |
| KvmBackend.Backend.BeginStart | vm/backend.go:151-169 | when a start is refused, ignored (perhaps dropping a dead runtime) or claims the pipeline |
| KvmBackend.Backend.TakeForStop | vm/backend.go:446-453 | a stop takes the whole runtime or finds none |
| VmLifecycle.KeepAll | vm/backend.go:147-476 | every step of starts, stops, checks, watchdogs and dying processes keeps the invariant |
| VmLifecycle.Reachable | vm/backend.go:147-476 | the invariant holds in every state of every run |
| VmLifecycle.OneStartAtATime | vm/backend.go:151-174 | `starting` holds exactly while one start pipeline is in flight, and there is never a second |
| VmLifecycle.StartedMeansWhole | vm/backend.go:385-395 | `started` holds exactly when qemu, helper, bridge and watchdogStop are all set, all of one runtime, with its own session directory |
| VmLifecycle.CommitOverwritesNothing | vm/backend.go:385-395 | a commit finds the backend empty |
| VmLifecycle.StopChannelClosedOnce | vm/backend.go:1185-1187 | a cleanup closes its own runtime's stop channel, which is still open |
| VmLifecycle.OwnWatchdogOnly | vm/backend.go:416-423 | a start's watchdog gets the channel of the runtime it launched, and no runtime gets a second watchdog |
| VmLifecycle.MovesForward | vm/backend.go:1142-1187 | where a runtime can go in one step, exactly which calls take it, and that it is lost exactly to a start that finds its QEMU dead and another start in flight |
| VmLifecycle.NeverBack | vm/backend.go:445-476 | over any run a runtime is taken at most once, and one taken by a stop or a check is still being cleaned or has been cleaned, once |
| VmLifecycle.NoStrayQemu | vm/backend.go:353-395 | every running QEMU belongs to a runtime being launched, installed, or about to be shut down |
| VmLifecycle.AtRest | vm/backend.go:1175-1220 | with no call in progress everything taken was cleaned, and only the installed and the lost runtimes have anything left |
| VmLifecycle.RuntimeCanBeLost | vm/backend.go:155-167 | a run that loses a runtime with its helper and bridge up |
| VmStarts.SessionIsAsAsked | vm/backend.go:176-178 | over any run every runtime is of the session that was the argument of the start whose goroutine built it, also after the cleanup of a dead one |
| VmStarts.StartRunsThrough | vm/backend.go:147-395 | from every reachable state in which no start is in flight and the backend is empty or its QEMU dead, a start can clean up and install the session asked for |
| VmStarts.StopRunsThrough | vm/backend.go:445-476 | from every reachable state with a runtime a stop can run through, after which nothing of it runs, its channel is closed, its directory gone and the backend empty |
| VmStarts.WatchdogToldIff | vm/backend.go:964-970 | a watchdog is told to quit exactly once its runtime's cleanup has closed the channel |
| VmStarts.WatchdogEnds | vm/backend.go:964-988 | a watchdog that fires or is told to quit is gone |
| VmDirectories.DirectoryKeptIff | vm/backend.go:1202-1206 | a start that makes its session directory keeps it while its runtime is launched or installed, whatever follows, exactly when no cleanup of that session is pending |
| VmDirectories.CleanupCanRemoveLiveDirectory | vm/backend.go:1202-1206 | a run in which a cleanup removes an installed runtime's directory |
| Framing.Uint32OfPut | pipe/protocol.go:45-66 | the big-endian length reads back |
| Framing.ReadBackIff | pipe/protocol.go:38-70 | a frame reads back as written exactly when its payload is within the reader's bounds |
| Framing.OversizeRefused | pipe/protocol.go:49-51 | a longer payload is refused with its length |
| Framing.StreamRoundTrip | pipe/protocol.go:38-70 | a stream of frames reads as exactly those messages and then the end |
| Framing.TruncatedStream | pipe/protocol.go:38-60 | a cut stream reads as exactly the messages before the cut, and an error that tells where the cut is |
| Framing.CutLiesInOneFrame | pipe/protocol.go:38-60 | every cut falls in one frame, so the previous row covers all of them |
| Framing.CleanCloseIff | vm/bridge.go:399-414 | the guest's reader reports a clean close exactly between frames or right after a header |
| Framing.Conn.ReadFull | pipe/protocol.go:41-57 | whatever the sizes of the reads, the buffer gets the next bytes of the stream |
| Framing.Conn.ReadMessage | pipe/protocol.go:38-60 | the two-step read is `ReadFrame` on the stream, for the socket and for the guest |
| Framing.Conn.WriteMessage | pipe/protocol.go:64-70 | a write that succeeds appends the whole frame, one that fails a strict prefix of it |
| PipeServer.Handle | pipe/handlers.go:27-92 | one write of one response, chosen by parse, method and outcome, with the request's id, and none if the response has no encoding |
| PipeServer.ReadLoop | pipe/server.go:169-202 | the payloads dispatched are the messages before the first subscription or error, in order |
| PipeServer.RequestsBeforeEvents | pipe/server.go:169-202 | from any stream of framed requests the loop dispatches those before the first subscription |
| PipeServer.Reachable | pipe/server.go:155-203 | in every interleaving the output is one frame per answered request and at most one cut frame, and only responses without an encoding are dropped |
| PipeServer.OneResponsePerRequest | pipe/server.go:195-201 | on an open connection the client decodes a permutation of exactly one response for each request whose response has an encoding, with its id and what its handler ended in |
| PipeServer.EachIdAnsweredOnce | pipe/protocol.go:21-28 | a request whose id is unique finds exactly one response with it, or none if that response was dropped |
| PipeServer.NeverGarbled | pipe/protocol.go:62-70 | on any connection the client decodes only whole responses, at most one per request |
| Strings.ReplaceAllSkip | native/process.go:289-293 | a pass copies a character at which no occurrence starts |
| Replacement.PassesAreSimultaneous | native/process.go:616-618 | passes that stay clear of earlier ones are one simultaneous scan |
| Replacement.OrderIrrelevantIff | native/process.go:616-618 | passes that stay clear of each other give the same text in every order exactly when replacing the longer of two nested patterns is replacing the shorter |
| Replacement.PassUndone | native/process.go:289-293 | without an overlap across an insertion the reverse pass restores the text |
| Replacement.PassUndoneIff | native/process.go:289-293 | the reverse pass restores every text exactly when no inserted text can complete an earlier occurrence |
| SessionPrefix.SessionPassUndoneIff | native/process.go:609-611 | the session pass is undone on all texts exactly for names that do not begin the data directory's path, prefixes of `sessions` apart |
| PathRemap.ToRealIsScan | native/process.go:608-618 | the input passes are one scan, for nested mounts too, although the session directory contains the pattern |
| PathRemap.RoundTrip | native/process.go:287-294 | for mounts that keep apart, nested ones included, tables in any two orders and text without host paths, output rewriting restores what input rewriting changed |
| NativeProcess.BuildTables | native/backend.go:461-486 | both remap tables list the mounts whose spellings differ, in the order the map was visited |
| NativeProcess.RewriteOutput | native/process.go:287-294 | output goes through the mount passes, then the session pass, if reverse mapping is on |
| NativeProcess.RewriteInput | native/process.go:608-618 | input goes through the session pass, then the mount passes |
| NativeProcess.InputOrderIff | native/backend.go:463-486 | the rewritten input is the same in every order of the map exactly when each nested mount's host path adds to the outer one what its name adds |
| NativeProcess.AnyOrderRoundTrips | native/backend.go:463-486 | the round trip holds for tables built in any two orders |
| NativeProcess.PresentedPathRestored | native/process.go:389-403 | the path checked on disk for `present_files` is the one the process printed |
| CoworkPrefix.CollapseRepeatedCoworkPrefix | native/backend.go:556-572 | the loop ends, with markers replaced until none is left; without a home the path is unchanged |
| CoworkPrefix.DataDirIs | native/backend.go:557-562 | below a clean home the prefix is `.local/share/claude-cowork` |
| CoworkPrefix.CollapsedIsNormal | native/backend.go:568-571 | the result has no marker, is a fixed point, and equals the path exactly when that had none |
| CoworkPrefix.MangledCollapses | native/backend.go:545-550 | however often the directory was prepended to a path below it, the same path comes out |
| CoworkPrefix.MangledUndoneIff | native/backend.go:545-555 | a marker-free absolute path survives prepending exactly when it lies below the directory |
| LexicalPath.CleanIsClean | native/backend.go:54 | cleaning a rooted path twice is cleaning it once, and keeps its components |
| LexicalPath.CleanByPieces | native/backend.go:54 | cleaning piece by piece: empty pieces and dots are dropped, two dots lead to the parent, other pieces are appended |
| LexicalPath.UnderIsComponentPrefix | native/backend.go:56 | the text check for "inside home" is containment by components |
| MountPaths.CanonicalizeIdempotent | native/backend.go:22-32 | canonicalizing twice is canonicalizing once, also for paths that do not exist |
| MountPaths.CanonicalizeKeepsRest | native/backend.go:19-32 | the canonical form is the deepest existing directory resolved, followed by the names below it |
| MountPaths.ResolverAnswers | native/backend.go:49-67 | what the native resolver answers on every input |
| MountPaths.HomeRelative | native/backend.go:66 | a path that is not in home when read from the root is followed from home, piece by piece, and stays below it unless it climbs |
| MountPaths.ResolversAgree | vm/paths.go:45-71 | however home is spelled, what the KVM resolver accepts the native one resolves alike, and exactly which paths it accepts |
| MountPaths.ResolvedIsFixed | native/backend.go:49-67 | a path placed in home resolves to itself when sent back root-relative: no doubled home |
| MountPaths.RootHome | vm/paths.go:60-70 | what both resolvers do when home is the root |
| Sorting.AscendingUnique | native/workspace.go:38 | an ascending listing is fixed by its elements |
| Sorting.SortStrings | transcript/transcript.go:91 | the same names in ascending order |
| Transcript.Slugify | transcript/transcript.go:27-43 | every other character becomes a dash, and long results are refused |
| Transcript.SlugIsPlain | transcript/transcript.go:24-43 | a usable slug is one plain directory name and its own slug |
| Transcript.SlugUsableIff | transcript/transcript.go:27-43 | a slug is usable exactly for paths of 1 to 200 characters |
| Transcript.ExtractResumeID | transcript/transcript.go:47-60 | the value that the resume flag carries |
| Transcript.FirstFlagDecides | transcript/transcript.go:47-60 | the first flag decides, with its own value or the next argument |
| Transcript.PathStaysInProject | transcript/transcript.go:62-69 | a valid id names a file exactly two levels below `projects` |
| Transcript.PathsDiffer | transcript/transcript.go:107-110 | different transcripts are different files |
| Transcript.Disk.FindTranscript | transcript/transcript.go:73-93 | the plain project directories that hold the session, sorted, and nothing for an invalid id |
| Transcript.Disk.CopyTranscript | transcript/transcript.go:100-143 | when a copy is refused, skipped, fails or is made, and that it never overwrites |
| Transcript.CopyExtends | transcript/transcript.go:95-99 | a copy changes no transcript and adds only one equal to an existing one of the session |
| Workspace.EligibleWorkspaceMounts | native/workspace.go:26-40 | exactly the mounts that can serve, each once, by name |
| Workspace.EligibleUnique | native/workspace.go:20-26 | the result does not depend on the order of the map |
| Workspace.OrderedCwdCandidates | native/workspace.go:65-100 | the first occurrences among hinted paths and then all eligible paths |
| Workspace.CandidatesAreEligible | native/workspace.go:58-65 | the candidates are exactly the eligible host paths, each once |
| Workspace.EarlierHintFirst | native/workspace.go:59-61 | a path named by an earlier hint comes first |
| Workspace.SameHintByName | native/workspace.go:85-90 | of the paths one hint names, those of mounts earlier by name come first |
| Workspace.HintNamesIff | native/workspace.go:77-90 | which mounts a hint names, spelled from the root or from home, whatever white space stands around it |
| Workspace.FieldsBarred | native/workspace.go:77 | hints are told apart by the bars between them |
| Workspace.UnhintedByName | native/workspace.go:60-61 | paths without a hint follow in the order of mount names |
| SpawnCwd.ChooseSpawnCwd | native/workspace.go:122-172 | the chosen directory and the one copy made, for whatever order the maps are visited in |
| SpawnCwd.ResumesWhereHeld | native/workspace.go:138-142 | a resumed session starts in the first candidate whose slug holds its transcript, and nothing is copied |
| SpawnCwd.StaysWhereHeld | native/workspace.go:138-142 | if only the current directory holds it, the session stays there, and nothing is copied |
| SpawnCwd.ElseFirstCandidate | native/workspace.go:143-172 | in every other case it starts in the first candidate, for which the first transcript found is copied |
| SpawnCwd.StaysWithoutMounts | native/workspace.go:123-126 | without an eligible mount the current directory is kept |
| SpawnCwd.MigrateTranscriptForResume | vm/native_artifacts.go:102-147 | what the KVM backend copies, and when it copies nothing |
| SpawnCwd.RepeatedSpawnIsStable | native/workspace.go:104-107 | a repeated spawn picks the same directory, and copies nothing after a copy that worked |
| SpawnCwd.ChosenCwdHoldsTranscriptIff | native/workspace.go:110-117 | the chosen directory's slug holds the session exactly when a mount is eligible or the kept directory already held it |
| SpawnCwd.MigrationHealsOnce | vm/native_artifacts.go:93-147 | after a migration that works the guest's slug holds the session, if need be as a copy of the first one found, and a second migration changes nothing |
| SpawnCwd.BackendsShareConfigDir | native/workspace.go:48-56 | both backends look for transcripts in the same directory |
| SpawnCwd.ConfigDirFromEnv | native/workspace.go:43-56 | without a mount for it the environment names the config dir |
| SpawnCwd.TranscriptsAreOnlyAdded | transcript/transcript.go:95-99 | over any sequence of native and KVM spawns transcripts are only added, each equal to one of the same session |
| DiskMgmt.HitsAreOwnedIff | native/diskmgmt.go:182 | deletion by prefix and accounting by first infix agree on all entries exactly for names without the infix |
| DiskMgmt.ValidNameIff | native/diskmgmt.go:171 | which names a deletion accepts |
| DiskMgmt.SessionsRoot.GetSessionsDiskInfo | native/diskmgmt.go:124-146 | each owner once, sorted, with the total of its directory and backups |
| DiskMgmt.SessionsRoot.DeleteSessionDirs | native/diskmgmt.go:159-197 | what is removed and reported for each name in turn, with its error |
| DiskMgmt.SessionsRoot.PruneSessionCaches | native/diskmgmt.go:205-276 | when nothing is done, and otherwise exactly what is removed, freed, skipped and reported |
| DiskTheorems.DeletedIsGone | native/diskmgmt.go:155-197 | a deleted session is no longer listed and every other session's size is unchanged |
| DiskTheorems.DeletedAreGone | native/diskmgmt.go:170-195 | for any list of names: which are refused and why, that the others are gone from the report, and that no other session loses a byte |
| DiskTheorems.FailureIsReported | native/diskmgmt.go:177-193 | a deletion that fails part way is reported as such and costs no other session a byte |
| DiskTheorems.DeletionAgreesIff | native/diskmgmt.go:171-187 | for valid names this holds for every directory exactly when the name has no infix |
| DiskTheorems.BackupDeletionChargesOwner | native/diskmgmt.go:171-187 | deleting a backup by name takes its bytes off its owner and off no one else |
| DiskTheorems.PruneConserves | native/diskmgmt.go:254-262 | bytes before are bytes after, bytes freed, and what failed removals deleted all the same |
| DiskTheorems.PruneSparesOthers | native/diskmgmt.go:236-253 | only qualifying backups change, and no running session's total |
| DiskTheorems.PruneIsExact | native/diskmgmt.go:224-276 | exactly which backups go, fail, and make a session pruned or skipped, by running sessions and age in seconds |
| DiskTheorems.PrunedAndSkippedAreDisjoint | native/diskmgmt.go:265-274 | both lists are sorted, free of duplicates and disjoint, and a skipped session lost nothing |
| DiskTheorems.CutoffExactIff | native/diskmgmt.go:233 | the age limit is exact while it fits 64-bit nanoseconds, and not beyond |
| QueueRepair.QueueFile.RepairQueue | scripts/cowork-session-doctor/src/cowork_session_doctor/core.py:439-505 | the file and the list of actions that the four fixes give, written only when something changed and it is no dry run |
| QueueTheorems.DiagnoseQueue | scripts/cowork-session-doctor/src/cowork_session_doctor/core.py:231-268 | the broken parents, string results and session mismatches of a queue, line by line |
| QueueTheorems.NoRepairsIff | scripts/cowork-session-doctor/src/cowork_session_doctor/core.py:502-503 | no fix is reported exactly when nothing would change |
| QueueTheorems.RepairIsIdempotent | scripts/cowork-session-doctor/src/cowork_session_doctor/core.py:439-505 | a second repair reports that nothing is needed and changes nothing |
| QueueTheorems.RepairedIsClean | scripts/cowork-session-doctor/src/cowork_session_doctor/core.py:250-268 | the file then holds no dummy message, and diagnosis finds no string results and no session mismatches |
| QueueTheorems.DryRunListsTheDiagnosis | scripts/cowork-session-doctor/src/cowork_session_doctor/core.py:465-494 | a dry run changes nothing and lists exactly what diagnosis finds, and stale last-prompts |
| QueueTheorems.PromptFixesFillIn | scripts/cowork-session-doctor/src/cowork_session_doctor/core.py:485-494 | the last-prompt fix only ever fills in a missing session id |
| QueueTheorems.RealRunListsTheSame | scripts/cowork-session-doctor/src/cowork_session_doctor/core.py:496-505 | a real run lists the fixes of a dry run, and then the write |
| QueueTheorems.SurvivorsInOrder | scripts/cowork-session-doctor/src/cowork_session_doctor/core.py:454-494 | every entry that is not of a dummy message survives, in order, with exactly the fixes made to its session id and string results, and nothing else changed |
| QueueTheorems.ChainSurvivesIff | scripts/cowork-session-doctor/src/cowork_session_doctor/core.py:231-241 | a sound parent chain stays sound exactly when no survivor but the first names a removed entry |

## Left out

- PathRemap.RoundTrip: the condition on the mounts is sufficient, not necessary; the exact condition is proved for the session pass alone (`SessionPrefix.SessionPassUndoneIff`) and for any single pass (`Replacement.PassUndoneIff`).
- SessionPrefix.SessionPassUndoneIff: the condition on names is for data directories without a directory named `sessions` in their path; for the others `Replacement.PassUndoneIff` gives the exact condition on the two strings.
- BridgeProtocol.Reachable: states runs that hand out fewer than 2^64 request ids.
- GuestBridge.Bridge.HandleMessage: an id enters as the number it stands for; the text forms that `normalizeID` accepts, and numbers above 2^53 that a JSON number cannot hold exactly, are not modelled.
- BridgeProtocol.RepliesMatch: the same holds of the ids it compares.
- VfsProtocol.Reachable: states runs that hand out fewer than 2^64 request ids; one helper process, launched once, as one client does.
- MountPaths.CanonicalizeIdempotent: symbolic links are an abstract map of what `EvalSymlinks` answers, with answers that are clean and resolve to themselves.
- JSON text: messages, requests, responses and queue entries start out parsed; `PipeServer` takes the encoder and decoder as parameters. The guest's and the helper's lines that do not parse are ignored by the source and do not occur here, except a line cut short.
- Malformed queue lines, which the doctor's parser replaces by diagnostic objects.
- Real time: timeouts, keepalive and the two-stage kill after `Stop` are steps that may happen at any point; ages are compared with a parsed timestamp given as a parameter.
- Sockets, vsock, QEMU and virtiofsd launch, preflight checks, OVMF, overlays and signals: a launch step succeeds or fails.
- Processes of a session: which sessions are running is a parameter of deletion and pruning, and does not change during one call.
- `SubscribeEvents` connections: the subscription handler's events and its later reads.
- Wrap-around of byte counts: sizes and freed bytes are unbounded.
- Project directories that are links to one another: a copy is seen under the name it was made.
- Concurrent spawns of one session: spawns follow one another.
- The prober beyond there being at most one, event forwarding, logging, credentials, prompt text and environment remapping in `Spawn`.
- Removal of native-era symlinks before a KVM spawn (`vm/native_artifacts.go`, the first half).
