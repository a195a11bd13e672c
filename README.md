# gdxsv rollback sync test, modelled in Dafny

gdxsv lets the PS2 game *Mobile Suit Gundam: Federation vs. Zeon DX* play
online inside PCSX2. A small patch linked into the game replaces its modem
and socket calls with stubs. The stubs post requests into an RPC mailbox in
guest memory and trap into the emulator. On the emulator side the `Gdxsv`
dispatcher answers each request: it opens a connection to the lobby server
(LBS) or a battle server (MCS), or hands the request to the replay bridge
`GdxsvBackendRollback`. The replay bridge plays a recorded battle log back as
if both servers were live, so GGPO's sync-test backend
(`GdxsvSyncTestBackend`) can rewind and replay frames and check that the game
is deterministic.

The project has one module per part of that chain:

- `SyncTest` (sync_test.dfy): the sync-test backend as a class. It covers
  frame recording, the rollback trigger, the step-by-step replay with its
  checksum comparison, and the end of a rollback.
- `OnlinePatch` (online_patch.dfy): applying and restoring lists of patch
  codes in guest memory. The dispatcher and the replay bridge both use it.
- `BattleLog` (battle_log.dfy): battle-log messages, the roster fix-up for
  old logs, and the flattening of recorded traffic into one message list.
- `RollbackBackend` (rollback_backend.dfy): the replay bridge. It has the
  lobby and battle-server phases, the receive buffer, key-message indexing,
  game-state snapshots, and its socket read, write and poll operations.
- `GdxRpc` (gdx_rpc.dfy): the six-word RPC mailbox both sides share.
- `GdxsvDispatcher` (gdxsv.dfy): `HandleRPC`, the network mode, the
  platform-info login packet, and the disk-2 fixes.
- `GuestStubs` (guest_stubs.dfy): the guest-side stubs and the `jal` hook
  installation of gdxsv_patch/src/main.c.
- `GuestMemory` (memory.dfy): guest memory as a byte map, with the read and
  write helpers of libs.h.
- `SavedAddresses` (saved_addresses.dfy): the debugger's saved-address table.
  It covers address expressions, cell edits, row removal, and import of the
  three saved line formats.
- `Wrappers` (wrappers.dfy): `Option`.

Where the source changes state in place, the model is a class whose methods
update their fields. Each such method is proved equal to a specification
function of the old state, and lemmas state what those functions promise.
The network backends, the clock, file I/O and the expression evaluator are
parameters of the operations that use them.

With a check distance of 0, `IncrementFrame` leaves `_last_verified`
unchanged (3rdparty/ggpo/src/lib/ggpo/backends/gdxsv_synctest.cpp:7-30), and
so does `SyncTest`.

## Model

| member | source | states |
|---|---|---|
| SyncTest.Erased | 3rdparty/ggpo/src/lib/ggpo/backends/gdxsv_synctest.cpp:10 | every byte of the current input is cleared and the length kept |
| SyncTest.GdxsvSyncTestBackend.constructor | 3rdparty/ggpo/src/lib/ggpo/backends/gdxsv_synctest.h:25 | a new backend starts at frame 0, not rolling back, begin frame 0, empty FIFO |
| SyncTest.GdxsvSyncTestBackend.IncrementFrame | 3rdparty/ggpo/src/lib/ggpo/backends/gdxsv_synctest.cpp:7-35 | the fields afterwards are `Incremented` of the fields before |
| SyncTest.GdxsvSyncTestBackend.BeginRollback | 3rdparty/ggpo/src/lib/ggpo/backends/gdxsv_synctest.cpp:37-51 | fields and returned frame count are `RolledBack` of the fields before |
| SyncTest.GdxsvSyncTestBackend.StepRollback | 3rdparty/ggpo/src/lib/ggpo/backends/gdxsv_synctest.cpp:53-77 | fields and the sync error raised (none, not-in-rollback, frame or checksum mismatch) are `Stepped` of the fields before |
| SyncTest.GdxsvSyncTestBackend.EndRollback | 3rdparty/ggpo/src/lib/ggpo/backends/gdxsv_synctest.cpp:79-93 | fields and the sync error raised are `Ended` of the fields before |
| SyncTest.InitialValid | 3rdparty/ggpo/src/lib/ggpo/backends/gdxsv_synctest.h:25 | a new backend satisfies the FIFO invariant |
| SyncTest.IncrementFrameEffect | 3rdparty/ggpo/src/lib/ggpo/backends/gdxsv_synctest.cpp:9-32 | the counter goes up by exactly 1 and the input is cleared; while rolling back or with check distance 0 the FIFO is unchanged; otherwise exactly one entry (new frame, last input, saved buffer and checksum) is appended |
| SyncTest.IncrementFrameValid | 3rdparty/ggpo/src/lib/ggpo/backends/gdxsv_synctest.cpp:15-32 | going forward, the FIFO keeps holding exactly the frames after the last verified one, in order |
| SyncTest.BeginRollbackEffect | 3rdparty/ggpo/src/lib/ggpo/backends/gdxsv_synctest.cpp:40-49 | returns 0 and changes nothing unless check distance > 0 and frame − last verified == check distance; then reloads the last verified frame, sets rollback, returns the check distance and records the pre-rewind frame |
| SyncTest.BeginRollbackValid | 3rdparty/ggpo/src/lib/ggpo/backends/gdxsv_synctest.cpp:42-49 | entering a rollback keeps the invariant: the FIFO holds exactly the frames to replay |
| SyncTest.StepRollbackValid | 3rdparty/ggpo/src/lib/ggpo/backends/gdxsv_synctest.cpp:53-73 | outside a rollback it fails and changes nothing; otherwise it removes exactly the front entry, advances one frame, never reports a frame-number mismatch, and keeps the invariant |
| SyncTest.RollbackProgress | 3rdparty/ggpo/src/lib/ggpo/backends/gdxsv_synctest.cpp:63-87 | during a rollback the FIFO is non-empty exactly when the counter is before the begin frame, and `EndRollback` succeeds exactly when the FIFO is empty |
| SyncTest.EndRollbackValid | 3rdparty/ggpo/src/lib/ggpo/backends/gdxsv_synctest.cpp:79-93 | succeeds iff rolling back and back at the begin frame; then last verified = begin frame and rollback cleared; on error nothing changes; keeps the invariant |
| SyncTest.FirstMismatch | 3rdparty/ggpo/src/lib/ggpo/backends/gdxsv_synctest.cpp:69-73 | the index of the first replayed checksum that differs from the recorded one: all before agree, the one at it differs |
| SyncTest.ReplayVerdict | 3rdparty/ggpo/src/lib/ggpo/backends/gdxsv_synctest.cpp:53-77 | replaying n frames reports a checksum error exactly at the first differing frame, with both checksums; if all agree it succeeds having consumed n FIFO entries and advanced n frames |
| SyncTest.VerificationCycle | 3rdparty/ggpo/src/lib/ggpo/backends/gdxsv_synctest.cpp:37-93 | a full begin/step*/end cycle from check distance frames ahead either succeeds, verifying the frame it began at with an empty FIFO and the counter back where it was, or reports the first differing frame |
| SyncTest.LastVerifiedMonotone | 3rdparty/ggpo/src/lib/ggpo/backends/gdxsv_synctest.cpp:90 | no operation moves the last verified frame backwards |
| SyncTest.BoundedLag | 3rdparty/ggpo/src/lib/ggpo/backends/gdxsv_synctest.cpp:19-49 | when every forward frame is preceded by a `BeginRollback` that does not fire, the engine stays at most check distance frames ahead of the last verified frame |
| BattleLog.ReadFrom | pcsx2/windows/VCprojects/gdxsv/gdxsv_backend_rollback.cpp:97-127 | a reader yields a message only when the parser consumes between one and all pending bytes, and exactly those bytes leave the head of the stream; otherwise the stream is unchanged |
| BattleLog.PingSearch | pcsx2/windows/VCprojects/gdxsv/gdxsv_backend_rollback.cpp:97-102 | the search for the first PingMsg never grows the pending stream |
| BattleLog.PingSearchFirstPing | pcsx2/windows/VCprojects/gdxsv/gdxsv_backend_rollback.cpp:97-102 | the search reports the sender of the first PingMsg among the messages the reader yields, and nothing when there is none, leaving the reader fully drained then |
| BattleLog.FixedUsers | pcsx2/windows/VCprojects/gdxsv/gdxsv_backend_rollback.cpp:109-116 | every user keeps its place and gets pos = position + 1, team = 1 + position/2, grade = min(14, wins/100) and its id as name, with an unplaced user read as position 0 |
| BattleLog.InsertByPos | pcsx2/windows/VCprojects/gdxsv/gdxsv_backend_rollback.cpp:118-119 | inserting into a position-sorted roster keeps it sorted and adds exactly that user |
| BattleLog.SortedCons | pcsx2/windows/VCprojects/gdxsv/gdxsv_backend_rollback.cpp:118-119 | a user not above the head of a sorted roster can be put in front of it |
| BattleLog.SortByPos | pcsx2/windows/VCprojects/gdxsv/gdxsv_backend_rollback.cpp:118-119 | the result is sorted by position and is a permutation of the input |
| BattleLog.LegacyUsersFixed | pcsx2/windows/VCprojects/gdxsv/gdxsv_backend_rollback.cpp:92-119 | the fixed-up legacy roster is sorted by position, has as many users as recorded, and holds exactly the recorded users each fixed up with its scanned position |
| BattleLog.FixedUserBounds | pcsx2/windows/VCprojects/gdxsv/gdxsv_backend_rollback.cpp:111-114 | for positions 0..3 the team is 1 or 2, pos is position + 1 and the grade is at most 14 and non-negative for non-negative wins |
| BattleLog.ExpandedAllAppend | pcsx2/windows/VCprojects/gdxsv/gdxsv_backend_rollback.cpp:129-135 | splitting KeyMsg2 distributes over concatenation of message lists |
| BattleLog.DrainedExpands | pcsx2/windows/VCprojects/gdxsv/gdxsv_backend_rollback.cpp:127-136 | draining a reader while splitting equals decoding the stream and then splitting every KeyMsg2 into its first and second key |
| BattleLog.MessageListExpandsLog | pcsx2/windows/VCprojects/gdxsv/gdxsv_backend_rollback.cpp:122-137 | the message list is the log's messages in order with every KeyMsg2 replaced by its two KeyMsg1 halves |
| BattleLog.ExpandedAllHasNoKeyMsg2 | pcsx2/windows/VCprojects/gdxsv/gdxsv_backend_rollback.cpp:129-131 | when neither half the codec splits off is a KeyMsg2, no KeyMsg2 is left in the message list |
| RollbackBackend.ClearedWellFormed | pcsx2/windows/VCprojects/gdxsv/gdxsv_backend_rollback.cpp:41-44 | a bridge with all key indices empty and non-negative start indices satisfies the index invariant |
| RollbackBackend.ReplayStartedFacts | pcsx2/windows/VCprojects/gdxsv/gdxsv_backend_rollback.cpp:109-146 | after a replay start: state Start, maxlag 1, replay flag set, all start indices 0, the message list is the log's messages with each KeyMsg2 split, a legacy roster is sorted and complete, a current log is kept as is, the key indices are untouched, and no KeyMsg2 remains when the codec splits properly |
| RollbackBackend.ReplayStartedWellFormed | pcsx2/windows/VCprojects/gdxsv/gdxsv_backend_rollback.cpp:109-146 | a replay started on a bridge whose key indices were cleared (as construction and `Reset` leave them) satisfies the bridge invariant |
| RollbackBackend.DiskRestoreOverridesApply | pcsx2/windows/VCprojects/gdxsv/gdxsv_backend_rollback.cpp:559-605 | restoring the disk-specific writes after applying them leaves every byte as restoring alone would |
| RollbackBackend.Ps2KeyPushToggled | pcsx2/windows/VCprojects/gdxsv/gdxsv_backend_rollback.cpp:570-605 | on the ps2 disk the patch stores word 0 and flag 1 and the restore stores 0x0c0e0be4 and flag 2 |
| RollbackBackend.Ps2Word | pcsx2/windows/VCprojects/gdxsv/gdxsv_backend_rollback.cpp:571-572 | the flag byte store does not disturb the key-push word |
| RollbackBackend.Snapshot | pcsx2/windows/VCprojects/gdxsv/gdxsv_backend_rollback.cpp:275-281 | a snapshot is 4 × 0x2100 bytes |
| RollbackBackend.SaveThenLoad | pcsx2/windows/VCprojects/gdxsv/gdxsv_backend_rollback.cpp:275-289 | loading a snapshot just saved changes no byte of guest memory |
| RollbackBackend.LoadThenSave | pcsx2/windows/VCprojects/gdxsv/gdxsv_backend_rollback.cpp:275-289 | saving right after loading yields the loaded snapshot |
| RollbackBackend.LoadOnlyPlayerWorks | pcsx2/windows/VCprojects/gdxsv/gdxsv_backend_rollback.cpp:283-289 | loading changes no byte outside 0x00866620 .. 0x00866620 + 4 × 0x2100 |
| RollbackBackend.ScanKeys | pcsx2/windows/VCprojects/gdxsv/gdxsv_backend_rollback.cpp:350-368 | the per-player scan only indexes messages inside the list and stops, if at all, inside the list |
| RollbackBackend.ScanKeysChain | pcsx2/windows/VCprojects/gdxsv/gdxsv_backend_rollback.cpp:360-365 | the indices found are KeyMsg1 of the player, increasing, with sequence numbers increasing by exactly 1 |
| RollbackBackend.ScanKeysStop | pcsx2/windows/VCprojects/gdxsv/gdxsv_backend_rollback.cpp:353-357 | a scan stops only on the player's StartMsg after at least one key, and every key found lies before it |
| RollbackBackend.KeyChainExtended | pcsx2/windows/VCprojects/gdxsv/gdxsv_backend_rollback.cpp:361-364 | appending a later KeyMsg1 whose sequence follows the last one keeps the chain |
| RollbackBackend.ScanKeysComplete | pcsx2/windows/VCprojects/gdxsv/gdxsv_backend_rollback.cpp:350-368 | a successful scan indexes every KeyMsg1 of the player between its start and its stop, and no other message |
| RollbackBackend.NoStartAfterKey | pcsx2/windows/VCprojects/gdxsv/gdxsv_backend_rollback.cpp:353-357 | after the first key, the scan ends at the player's first StartMsg |
| RollbackBackend.ScanKeysFirstStart | pcsx2/windows/VCprojects/gdxsv/gdxsv_backend_rollback.cpp:353-357 | StartMsg of the player before its first key are stepped over |
| RollbackBackend.KeysAfter | pcsx2/windows/VCprojects/gdxsv/gdxsv_backend_rollback.cpp:350 | every key found by a scan starting after i lies after i |
| RollbackBackend.KeyPositionsBounds | pcsx2/windows/VCprojects/gdxsv/gdxsv_backend_rollback.cpp:350-365 | the key positions of a range lie within that range |
| RollbackBackend.ScanKeysFailure | pcsx2/windows/VCprojects/gdxsv/gdxsv_backend_rollback.cpp:362-366 | a scan fails only at a message of the player that is a KeyMsg2 or a KeyMsg1 whose sequence does not follow the last key's |
| RollbackBackend.PreparedFrom | pcsx2/windows/VCprojects/gdxsv/gdxsv_backend_rollback.cpp:346-369 | re-indexing changes only the key indices and start indices and keeps their shape |
| RollbackBackend.PreparedWellFormed | pcsx2/windows/VCprojects/gdxsv/gdxsv_backend_rollback.cpp:346-369 | re-indexing keeps every player's index a key chain of that player |
| RollbackBackend.PreparedStep | pcsx2/windows/VCprojects/gdxsv/gdxsv_backend_rollback.cpp:347-356 | one player's step: a failed scan fails the whole re-index; a successful one stores the indices and moves the start index past the stopping StartMsg |
| RollbackBackend.IndexedKeySequence | pcsx2/windows/VCprojects/gdxsv/gdxsv_backend_rollback.cpp:362-521 | the s-th indexed message of player p is p's KeyMsg1 with sequence number first + s |
| RollbackBackend.LbsAppends | pcsx2/windows/VCprojects/gdxsv/gdxsv_backend_rollback.cpp:372-451 | lobby processing only appends to the receive buffer, and from Start it first appends the ready-battle notice |
| RollbackBackend.LbsTransitions | pcsx2/windows/VCprojects/gdxsv/gdxsv_backend_rollback.cpp:373-450 | Start moves to LbsStartBattleFlow with delay 1; a request read is consumed and sets the delay to 1; a logout moves to McsWaitJoin; other requests keep the phase; nothing pending changes nothing after the opening |
| RollbackBackend.LbsFrame | pcsx2/windows/VCprojects/gdxsv/gdxsv_backend_rollback.cpp:372-451 | lobby processing changes only the receive buffer, the delay, the phase, the lobby stream and the player position |
| RollbackBackend.LbsAnsweredFrame | pcsx2/windows/VCprojects/gdxsv/gdxsv_backend_rollback.cpp:387-448 | answering one request changes only the receive buffer, the phase and the player position |
| RollbackBackend.LobbyNeverGoesBack | pcsx2/windows/VCprojects/gdxsv/gdxsv_backend_rollback.cpp:373-448 | lobby processing never moves the phase backwards |
| RollbackBackend.BroadcastReplies | pcsx2/windows/VCprojects/gdxsv/gdxsv_backend_rollback.cpp:462-549 | a broadcast is exactly one reply per player other than me, in player order |
| RollbackBackend.OthersAll | pcsx2/windows/VCprojects/gdxsv/gdxsv_backend_rollback.cpp:463-464 | when me is not among the players, every player replies |
| RollbackBackend.OthersOnePerOther | pcsx2/windows/VCprojects/gdxsv/gdxsv_backend_rollback.cpp:463-464 | when me is among n players, exactly n − 1 reply, skipping me |
| RollbackBackend.ReplayedKeyIsPlayers | pcsx2/windows/VCprojects/gdxsv/gdxsv_backend_rollback.cpp:519-524 | the replayed key for player i at offset s is i's KeyMsg1 with sequence first + s |
| RollbackBackend.McsProcessedKeeps | pcsx2/windows/VCprojects/gdxsv/gdxsv_backend_rollback.cpp:454-557 | battle-server processing keeps the index invariant, the message list and the log, and changes the phase only to McsInBattle |
| RollbackBackend.SameIndicesWellFormed | pcsx2/windows/VCprojects/gdxsv/gdxsv_backend_rollback.cpp:346-369 | the invariant depends only on the message list and the indices |
| RollbackBackend.McsProcessedAppends | pcsx2/windows/VCprojects/gdxsv/gdxsv_backend_rollback.cpp:454-557 | battle-server processing only appends to the receive buffer |
| RollbackBackend.McsProcessedFails | pcsx2/windows/VCprojects/gdxsv/gdxsv_backend_rollback.cpp:530-531 | a KeyMsg2 is fatal; any message other than KeyMsg2 or StartMsg succeeds; nothing pending changes nothing |
| RollbackBackend.SockWriteNeverGoesBack | pcsx2/windows/VCprojects/gdxsv/gdxsv_backend_rollback.cpp:291-316 | a socket write never moves the phase backwards before End |
| RollbackBackend.SockReadFifo | pcsx2/windows/VCprojects/gdxsv/gdxsv_backend_rollback.cpp:318-333 | a read hands the guest the oldest min(buffered, size) bytes, removes exactly those, returns their count, and returns 0 on an empty buffer |
| RollbackBackend.SockPollDelays | pcsx2/windows/VCprojects/gdxsv/gdxsv_backend_rollback.cpp:335-344 | a poll consumes nothing; with a delay pending it returns 0 and counts the delay down; otherwise it returns the buffered size |
| RollbackBackend.LobbyReplyIsDelayed | pcsx2/windows/VCprojects/gdxsv/gdxsv_backend_rollback.cpp:339-450 | the poll right after a lobby request is answered returns 0 |
| RollbackBackend.ScanPlayerPositions | pcsx2/windows/VCprojects/gdxsv/gdxsv_backend_rollback.cpp:92-107 | the loop computes the position scan of the recorded traffic |
| RollbackBackend.FixUpUsers | pcsx2/windows/VCprojects/gdxsv/gdxsv_backend_rollback.cpp:109-116 | the loop computes the fixed-up roster |
| RollbackBackend.DrainReader | pcsx2/windows/VCprojects/gdxsv/gdxsv_backend_rollback.cpp:127-136 | the inner read loop drains the reader, splitting each KeyMsg2 |
| RollbackBackend.DrainStep | pcsx2/windows/VCprojects/gdxsv/gdxsv_backend_rollback.cpp:127-136 | one read of a drain appends the message (or its two halves) and continues on the rest of the stream |
| RollbackBackend.ReplayUsers | pcsx2/windows/VCprojects/gdxsv/gdxsv_backend_rollback.cpp:74-120 | the roster kept is the legacy fix-up for old logs and the recorded users otherwise |
| RollbackBackend.ReadMessageList | pcsx2/windows/VCprojects/gdxsv/gdxsv_backend_rollback.cpp:122-137 | the loop over records computes the message list with one reader that carries leftover bytes over |
| RollbackBackend.ClearAll | pcsx2/windows/VCprojects/gdxsv/gdxsv_backend_rollback.cpp:41-43 | every per-player list is emptied |
| RollbackBackend.IndexPlayerKeys | pcsx2/windows/VCprojects/gdxsv/gdxsv_backend_rollback.cpp:350-368 | the loop computes the player's key scan |
| RollbackBackend.PrepareIndices | pcsx2/windows/VCprojects/gdxsv/gdxsv_backend_rollback.cpp:346-369 | the loop over players computes the re-indexing, failing exactly when it fails |
| RollbackBackend.PopInto | pcsx2/windows/VCprojects/gdxsv/gdxsv_backend_rollback.cpp:327-331 | n bytes popped from the front of the buffer are written to addr .. addr+n−1 in order |
| RollbackBackend.GdxsvBackendRollback.constructor | pcsx2/windows/VCprojects/gdxsv/gdxsv_backend_rollback.cpp:21-24 | a new bridge is in state None with empty containers and the given maxlag |
| RollbackBackend.GdxsvBackendRollback.Reset | pcsx2/windows/VCprojects/gdxsv/gdxsv_backend_rollback.cpp:30-49 | from any bridge with the four key indices of the source's fixed array, the patches are restored, every field is cleared to its reset value, and the invariant is established, including on a bridge a restarted replay left with stale indices |
| RollbackBackend.GdxsvBackendRollback.ClearSession | pcsx2/windows/VCprojects/gdxsv/gdxsv_backend_rollback.cpp:32-37 | the phase, replay flag, streams, log and receive buffer are cleared |
| RollbackBackend.GdxsvBackendRollback.ClearIndices | pcsx2/windows/VCprojects/gdxsv/gdxsv_backend_rollback.cpp:38-44 | the delay, position, message list, key indices and start indices are cleared |
| RollbackBackend.GdxsvBackendRollback.StartReplayTest | pcsx2/windows/VCprojects/gdxsv/gdxsv_backend_rollback.cpp:74-146 | the fields afterwards are the replay start of the parsed log, with the key indices left as they were; the invariant holds when they were cleared before |
| RollbackBackend.GdxsvBackendRollback.Arm | pcsx2/windows/VCprojects/gdxsv/gdxsv_backend_rollback.cpp:143-146 | start indices 0, state Start, maxlag 1 and the replay flag set, with the log and message list stored |
| RollbackBackend.GdxsvBackendRollback.Close | pcsx2/windows/VCprojects/gdxsv/gdxsv_backend_rollback.cpp:197-200 | the patches are restored and the state is End, nothing else changes |
| RollbackBackend.GdxsvBackendRollback.SaveCurrentGameState | pcsx2/windows/VCprojects/gdxsv/gdxsv_backend_rollback.cpp:275-281 | the snapshot array holds the four player work areas |
| RollbackBackend.GdxsvBackendRollback.LoadGameState | pcsx2/windows/VCprojects/gdxsv/gdxsv_backend_rollback.cpp:283-289 | memory afterwards is the snapshot written back over the player work areas |
| RollbackBackend.GdxsvBackendRollback.OnSockWrite | pcsx2/windows/VCprojects/gdxsv/gdxsv_backend_rollback.cpp:291-316 | size 0 returns 0 and changes nothing; otherwise the bytes read from addr are queued and processed by phase, the repeating patches are re-applied and size is returned |
| RollbackBackend.GdxsvBackendRollback.OnSockRead | pcsx2/windows/VCprojects/gdxsv/gdxsv_backend_rollback.cpp:318-333 | fields, memory and response are those of `SockRead`: the delivered bytes are written at addr |
| RollbackBackend.GdxsvBackendRollback.OnSockPoll | pcsx2/windows/VCprojects/gdxsv/gdxsv_backend_rollback.cpp:335-344 | fields and response are those of `SockPolled` |
| RollbackBackend.GdxsvBackendRollback.PrepareKeyMsgIndex | pcsx2/windows/VCprojects/gdxsv/gdxsv_backend_rollback.cpp:346-369 | fields are re-indexed as `PreparedFrom` says, failing exactly when a verify would fire |
| RollbackBackend.GdxsvBackendRollback.ProcessLbsMessage | pcsx2/windows/VCprojects/gdxsv/gdxsv_backend_rollback.cpp:372-452 | fields are those of `LbsProcessed` |
| RollbackBackend.GdxsvBackendRollback.AnswerLbs | pcsx2/windows/VCprojects/gdxsv/gdxsv_backend_rollback.cpp:387-448 | fields are those of `LbsAnswered`; the indices are untouched |
| RollbackBackend.GdxsvBackendRollback.AppendBroadcast | pcsx2/windows/VCprojects/gdxsv/gdxsv_backend_rollback.cpp:463-468 | the receive buffer gains the broadcast of every player but me |
| RollbackBackend.GdxsvBackendRollback.AppendLiveKeys | pcsx2/windows/VCprojects/gdxsv/gdxsv_backend_rollback.cpp:509-515 | the receive buffer gains a KeyMsg1 created for every player |
| RollbackBackend.GdxsvBackendRollback.AppendReplayedKeys | pcsx2/windows/VCprojects/gdxsv/gdxsv_backend_rollback.cpp:519-525 | the receive buffer gains each player's recorded key at offset s |
| RollbackBackend.GdxsvBackendRollback.ProcessMcsMessage | pcsx2/windows/VCprojects/gdxsv/gdxsv_backend_rollback.cpp:454-557 | fields are those of `McsProcessed`, failing exactly on a fatal verify |
| RollbackBackend.GdxsvBackendRollback.AnswerMcs | pcsx2/windows/VCprojects/gdxsv/gdxsv_backend_rollback.cpp:458-555 | fields are those of `McsAnswered` |
| RollbackBackend.GdxsvBackendRollback.ApplyPatch | pcsx2/windows/VCprojects/gdxsv/gdxsv_backend_rollback.cpp:559-594 | memory afterwards is `PatchApplied`: nothing in state None or End, else the disk writes then the log's patches, skipping write-once ones unless first time |
| RollbackBackend.GdxsvBackendRollback.RestorePatch | pcsx2/windows/VCprojects/gdxsv/gdxsv_backend_rollback.cpp:596-622 | memory afterwards is `PatchRestored`: the disk writes undone, then every code's original value |
| OnlinePatch.Repeated | pcsx2/windows/VCprojects/gdxsv/gdxsv.cpp:287-289 | the patches a repeated application writes are exactly the listed patches that are not write-once |
| OnlinePatch.Code8Written | pcsx2/windows/VCprojects/gdxsv/gdxsv.cpp:295-297 | an 8-bit code stores its value masked to 0xff at its address and changes no other byte |
| OnlinePatch.Code16Written | pcsx2/windows/VCprojects/gdxsv/gdxsv.cpp:298-300 | a 16-bit code stores its value masked to 0xffff, high byte at the address and low byte after it, and changes no other byte |
| OnlinePatch.Code32Written | pcsx2/windows/VCprojects/gdxsv/gdxsv.cpp:301-303 | a 32-bit code stores its full value; a code of any other size writes nothing |
| OnlinePatch.CodeWrittenAvoids | pcsx2/windows/VCprojects/gdxsv/gdxsv.cpp:293-304 | a code changes no byte it does not cover |
| OnlinePatch.RepeatedSkipsWriteOnce | pcsx2/windows/VCprojects/gdxsv/gdxsv.cpp:285-289 | a repeated application writes exactly what a first application of the non-write-once patches writes |
| OnlinePatch.FirstTimeWritesAll | pcsx2/windows/VCprojects/gdxsv/gdxsv.cpp:285-305 | a first application skips nothing |
| OnlinePatch.CodesWrittenOutside | pcsx2/windows/VCprojects/gdxsv/gdxsv.cpp:293-304 | a run of codes changes no byte none of them covers |
| OnlinePatch.AppliedOutside | pcsx2/windows/VCprojects/gdxsv/gdxsv.cpp:285-305 | applying a patch list changes no byte its codes do not cover |
| OnlinePatch.WriteCode | pcsx2/windows/VCprojects/gdxsv/gdxsv.cpp:295-303 | memory afterwards is the one code written |
| OnlinePatch.WriteCodes | pcsx2/windows/VCprojects/gdxsv/gdxsv.cpp:293-304 | memory afterwards is the codes written in order |
| OnlinePatch.ApplyPatches | pcsx2/windows/VCprojects/gdxsv/gdxsv.cpp:284-306 | memory afterwards is `Applied`: every non-skipped patch's changed values in order |
| OnlinePatch.RestorePatches | pcsx2/windows/VCprojects/gdxsv/gdxsv.cpp:308-324 | memory afterwards is `Restored`: every patch's original values in order, write-once ones included |
| GdxsvDispatcher.KeyBytes | pcsx2/windows/VCprojects/gdxsv/gdxsv.cpp:138-144 | a key becomes as many bytes as it has characters |
| GdxsvDispatcher.ByteChars | pcsx2/windows/VCprojects/gdxsv/gdxsv.cpp:138-144 | bytes become as many characters |
| GdxsvDispatcher.BigEndian16 | pcsx2/windows/VCprojects/gdxsv/gdxsv.cpp:136-143 | a length prefix is two bytes |
| GdxsvDispatcher.EncodedKey | pcsx2/windows/VCprojects/gdxsv/gdxsv.cpp:139-141 | the masked key has the key's length |
| GdxsvDispatcher.EncodedKeyTwice | pcsx2/windows/VCprojects/gdxsv/gdxsv.cpp:139-141 | masking the masked key with the same magic gives the login key back |
| GdxsvDispatcher.ByteCharsOfKeyBytes | pcsx2/windows/VCprojects/gdxsv/gdxsv.cpp:144 | key characters survive the trip through packet bytes |
| GdxsvDispatcher.BigEndian16Read | pcsx2/windows/VCprojects/gdxsv/gdxsv.cpp:136-147 | the two big-endian bytes of a 16-bit number read back as that number |
| GdxsvDispatcher.PacketLayout | pcsx2/windows/VCprojects/gdxsv/gdxsv.cpp:133-148 | the packet is 16 + info + key bytes long, starts with the fixed header except bytes 4..5, which hold (length − 12) mod 2^16 big-endian, and continues with the length-prefixed info and the length-prefixed masked key |
| GdxsvDispatcher.PacketRoundTrip | pcsx2/windows/VCprojects/gdxsv/gdxsv.cpp:133-148 | a reader that checks the header and payload size recovers exactly the info text and the login key, for lengths below 2^16 |
| GdxsvDispatcher.GeneratePlatformInfoPacket | pcsx2/windows/VCprojects/gdxsv/gdxsv.cpp:133-149 | the appended-then-patched packet is `PlatformInfoPacket` of the info text and key |
| GdxsvDispatcher.EncodeKey | pcsx2/windows/VCprojects/gdxsv/gdxsv.cpp:139-141 | the masking loop over a zero-filled buffer yields the masked key |
| GdxsvDispatcher.NextMode | pcsx2/windows/VCprojects/gdxsv/gdxsv.cpp:167-223 | Replay is kept and never entered; the mode changes only on open or close; a close outside replay gives Offline; Lbs is entered only by a connected open with tolobby 1 |
| GdxsvDispatcher.Response | pcsx2/windows/VCprojects/gdxsv/gdxsv.cpp:225-259 | the response is 0 unless a read, write or poll arrives in Lbs, McsUdp or Replay mode |
| GdxsvDispatcher.HandledMailbox | pcsx2/windows/VCprojects/gdxsv/gdxsv.cpp:261-268 | after an RPC the guest reads request and parameters 0, the response in word 1, and is_online = (new mode ≠ Offline), when is_online lies outside the mailbox |
| GdxsvDispatcher.InGameAfterRpc | pcsx2/windows/VCprojects/gdxsv/gdxsv.cpp:167-223 | the dispatcher is in a match after an RPC exactly when enabled and either it already was in McsUdp and the RPC neither opened nor closed, or the RPC was a connected non-lobby open outside replay |
| GdxsvDispatcher.Disk2FixedKeepsKeyByte | pcsx2/windows/VCprojects/gdxsv/gdxsv.cpp:347-353 | the three fixed writes do not touch the first login key byte |
| GdxsvDispatcher.Disk2KeepsPresentKey | pcsx2/windows/VCprojects/gdxsv/gdxsv.cpp:356-361 | when the game already has a login key, the patch is the same as for an empty key: the key is never overwritten |
| GdxsvDispatcher.Disk2WritesBlankKey | pcsx2/windows/VCprojects/gdxsv/gdxsv.cpp:356-361 | when the key area is blank and no online patch covers it, the login key can be read back from 0x00a88370 afterwards |
| GdxsvDispatcher.ReadMailbox | pcsx2/windows/VCprojects/gdxsv/gdxsv.cpp:159-165 | the six word reads give the mailbox record |
| GdxsvDispatcher.Gdxsv.constructor | pcsx2/windows/VCprojects/gdxsv/gdxsv.h:28-71 | a dispatcher starts Offline, with the enable flag, maximum lag, login key, symbols and patch list that `Reset` and the game's configuration supply |
| GdxsvDispatcher.Gdxsv.InGame | pcsx2/windows/VCprojects/gdxsv/gdxsv.cpp:13-15 | the game is in a match exactly when gdxsv is enabled and the mode is McsUdp; `GdxsvDispatcher.InGameAfterRpc` states when that holds after an RPC |
| GdxsvDispatcher.Gdxsv.HandleRPC | pcsx2/windows/VCprojects/gdxsv/gdxsv.cpp:152-269 | mode, memory and the packet sent are `Handle` of the old mode and memory, with the mailbox at symbol gdx_rpc (0 when missing: nothing changes) |
| GdxsvDispatcher.Gdxsv.SwitchMode | pcsx2/windows/VCprojects/gdxsv/gdxsv.cpp:167-223 | the mode afterwards is `NextMode` and the login packet is sent exactly on a connected lobby open |
| GdxsvDispatcher.Gdxsv.ApplyOnlinePatch | pcsx2/windows/VCprojects/gdxsv/gdxsv.cpp:284-306 | memory afterwards is the patch list applied, skipping write-once patches unless first time |
| GdxsvDispatcher.Gdxsv.RestoreOnlinePatch | pcsx2/windows/VCprojects/gdxsv/gdxsv.cpp:308-326 | memory afterwards has every code's original value and the patch list is empty |
| GdxsvDispatcher.Gdxsv.WritePatchDisk2 | pcsx2/windows/VCprojects/gdxsv/gdxsv.cpp:336-365 | memory afterwards is the max-lag byte, the two fixed words, the login key if the key area was blank, then the repeated online patches |
| GdxRpc.Words | gdxsv_patch/src/main.c:29-35 | the record is six words, in field order |
| GdxRpc.WordsApart | gdxsv_patch/src/main.c:29-35 | distinct words of the record never overlap, even when it wraps around the address space |
| GdxRpc.StoredWordsLoad | gdxsv_patch/src/main.c:48-54 | each of up to six words stored in a run reads back as stored: later stores do not clobber earlier ones |
| GdxRpc.MailboxStored | pcsx2/windows/VCprojects/gdxsv/gdxsv.cpp:159-165 | a record stored word by word is read back by the host's six reads unchanged |
| GdxRpc.StoredWordsSnoc | gdxsv_patch/src/main.c:48-54 | storing one more word is one more store after the run |
| GdxRpc.StoredSix | gdxsv_patch/src/main.c:48-54 | the six field stores in order leave memory as the run of stores says |
| GdxRpc.WriteMailbox | pcsx2/windows/VCprojects/gdxsv/gdxsv.cpp:261-266 | memory after the six stores of a record's fields is that run of stores |
| GuestStubs.OpJalJumps | gdxsv_patch/src/main.c:83-85 | for a stub and a call site in the first 256 MiB, the hook word is a MIPS jal (opcode 3) that jumps to the stub's word address |
| GuestStubs.RpcCall | gdxsv_patch/src/main.c:48-57 | the mailbox receives the request, a zero response and the four parameters, the host runs on that memory, and the caller gets back the response word the host left |
| GuestStubs.RpcAnswered | gdxsv_patch/src/main.c:48-57 | end to end with the dispatcher as host: the stub's return value is exactly the dispatcher's response to the request it posted (the backend's answer to a read, write or poll in a connected mode, 0 otherwise) |
| GuestStubs.Readable | gdxsv_patch/src/main.c:89-95 | the readable size is 0 exactly when the poll result read as a signed int is not positive, equals it when it lies in 1..0x7fff, and is exactly 0x7fff above that |
| GuestStubs.StatusWords | gdxsv_patch/src/main.c:96-97 | the caller's status block holds 0 in its first word and the readable size in its second |
| GuestStubs.TcpGetStatus | gdxsv_patch/src/main.c:87-101 | one poll RPC, then both status words are written; the return value is 0 when the poll reported pending bytes and -1 as u32 otherwise |
| GuestStubs.TcpSend | gdxsv_patch/src/main.c:103-117 | a zero-length send returns 0 and posts no RPC; any other posts a write RPC with the buffer address and length and returns its response |
| GuestStubs.TcpRecv | gdxsv_patch/src/main.c:119-124 | a zero-length receive returns 0 and posts no RPC; any other posts a read RPC with the buffer address and length and returns its response |
| GuestStubs.McsReceive | gdxsv_patch/src/main.c:126-130 | the match-server receive: length 0 returns 0 without an RPC, otherwise a read RPC whose response is returned |
| GuestStubs.SwappedPortSmall | gdxsv_patch/src/main.c:138 | for a 16-bit port the endian fix exchanges its two bytes, and applying it twice gives the port back |
| GuestStubs.OpenGoesWhereDialled | gdxsv_patch/src/main.c:174-177 | opening the address the hostname lookup hands out connects the dispatcher to the lobby server and sends the login packet; opening any other address connects to a match server |
| GuestStubs.TcpOpen | gdxsv_patch/src/main.c:136-141 | posts an open RPC whose first parameter says whether the address is the lobby's, with the port bytes swapped, and always returns the dummy socket 7 |
| GuestStubs.TcpClose | gdxsv_patch/src/main.c:143-147 | posts a close RPC and returns 0 |
| GuestStubs.HookedOutside | gdxsv_patch/src/main.c:184-214 | writing the hooks leaves every word that no call site overlaps unchanged |
| GuestStubs.WritePatch | gdxsv_patch/src/main.c:184-214 | the nineteen call sites receive, in order, a jal to the stub each one is redirected to |
| GuestStubs.DialStatusSet | gdxsv_patch/src/main.c:216-229 | after every dial start, first or repeated, the game reads dial status 2 |
| GuestStubs.DialStartRepeated | gdxsv_patch/src/main.c:216-229 | a dial start after initialisation changes nothing besides the dial status word |
| GuestStubs.GuestPatch.constructor | gdxsv_patch/src/main.c:40-41 | the patch starts uninitialised |
| GuestStubs.GuestPatch.DialStart | gdxsv_patch/src/main.c:216-229 | sets dial status 2, writes the hooks only when not yet initialised, and leaves the patch initialised |
| GuestMemory.ToU32 | gdxsv_patch/src/main.c:88 | the conversion to u32 keeps values in range and otherwise differs by a multiple of 2^32 |
| GuestMemory.ToU8 | pcsx2/windows/VCprojects/gdxsv/libs.h:60-63 | the conversion to u8 keeps values below 256 and otherwise differs by a multiple of 256 |
| GuestMemory.ToU16 | pcsx2/windows/VCprojects/gdxsv/libs.h:60 | the conversion to u16 keeps values below 2^16 and otherwise differs by a multiple of 2^16 |
| GuestMemory.ToInt32 | gdxsv_patch/src/main.c:91 | a u32 read as int lies in the signed 32-bit range, converts back to the same u32, and is negative exactly when the top bit is set |
| GuestMemory.Offset | pcsx2/windows/VCprojects/gdxsv/libs.h:67-68 | the distance from one address to another in the wrapping address space, which added back reaches the second address |
| GuestMemory.OffsetOfAddrAdd | pcsx2/windows/VCprojects/gdxsv/libs.h:67-68 | the distance from a to a + k is k for every k below 2^32 |
| GuestMemory.Block | pcsx2/windows/VCprojects/gdxsv/libs.h:65-70 | a block read is as long as asked for |
| GuestMemory.WrittenBlockLoad | pcsx2/windows/VCprojects/gdxsv/libs.h:72-77 | after a block write each byte holds the written byte when it lies in the block and its old value otherwise |
| GuestMemory.ReadAfterWrite | pcsx2/windows/VCprojects/gdxsv/libs.h:65-77 | reading back a block just written gives the written bytes |
| GuestMemory.WriteBackUnchanged | pcsx2/windows/VCprojects/gdxsv/libs.h:65-77 | writing back a block just read changes no byte |
| GuestMemory.WrittenBlockOutside | pcsx2/windows/VCprojects/gdxsv/libs.h:72-77 | a block write leaves every block that does not overlap it as it was |
| GuestMemory.DisjointOffset | pcsx2/windows/VCprojects/gdxsv/libs.h:67-75 | a byte of a range disjoint from [a, a+n) lies at least n past a |
| GuestMemory.LittleEndian32 | pcsx2/windows/VCprojects/gdxsv/libs.h:57 | a word becomes four bytes that read back as the same word |
| GuestMemory.Load32Store32 | pcsx2/windows/VCprojects/gdxsv/libs.h:54-57 | a stored word reads back as stored |
| GuestMemory.Load32StoreDisjoint | pcsx2/windows/VCprojects/gdxsv/libs.h:54-57 | a word store leaves every word that does not overlap it as it was |
| GuestMemory.Store16Bytes | pcsx2/windows/VCprojects/gdxsv/libs.h:60-63 | a 16-bit write puts the high byte at a, the low byte at a + 1, and changes no other byte |
| GuestMemory.Memory.constructor | pcsx2/windows/VCprojects/gdxsv/libs.h:54-58 | guest memory starts with the given contents |
| GuestMemory.Memory.Write8 | pcsx2/windows/VCprojects/gdxsv/libs.h:58 | one byte is stored and nothing else changes |
| GuestMemory.Memory.Write32 | pcsx2/windows/VCprojects/gdxsv/libs.h:57 | the little-endian word is stored and nothing else changes |
| GuestMemory.Memory.Write16 | pcsx2/windows/VCprojects/gdxsv/libs.h:60-63 | two byte writes, high byte first, leave memory as the 16-bit store says |
| GuestMemory.Memory.ReadBlock | pcsx2/windows/VCprojects/gdxsv/libs.h:65-70 | the copy has the requested size and byte i is the guest byte at addr + i |
| GuestMemory.Memory.WriteBlock | pcsx2/windows/VCprojects/gdxsv/libs.h:72-77 | memory after the loop is the block write of the source bytes at dst |
| SavedAddresses.TrimStart | pcsx2-qt/Debugger/Memory/SavedAddressesModel.cpp:88 | leading whitespace is dropped: the result is no longer and does not start with a space |
| SavedAddresses.TrimEnd | pcsx2-qt/Debugger/Memory/SavedAddressesModel.cpp:88 | trailing whitespace is dropped: the result is no longer and does not end with a space |
| SavedAddresses.TrimNoSpaceEnds | pcsx2-qt/Debugger/Memory/SavedAddressesModel.cpp:88 | a string without whitespace at either end is left as it is by trimming |
| SavedAddresses.TrimEndFirst | pcsx2-qt/Debugger/Memory/SavedAddressesModel.cpp:88 | trimming the end of a string that starts with a non-space keeps that first character |
| SavedAddresses.TrimTwice | pcsx2-qt/Debugger/Memory/SavedAddressesModel.cpp:173-175 | trimming is idempotent, so the expression stored by an edit re-evaluates to the same address |
| SavedAddresses.DigitValue | pcsx2-qt/Debugger/Memory/SavedAddressesModel.cpp:94 | a hexadecimal digit is worth less than 16, a decimal one less than 10 |
| SavedAddresses.HexChar | pcsx2-qt/Debugger/Memory/SavedAddressesModel.cpp:125 | the digit printed for n below 16 is a hexadecimal digit worth n |
| SavedAddresses.HexDigits | pcsx2-qt/Debugger/Memory/SavedAddressesModel.cpp:125 | an address prints as a non-empty run of hexadecimal digits |
| SavedAddresses.HexDigitsValue | pcsx2-qt/Debugger/Memory/SavedAddressesModel.cpp:125 | the printed digits read back in base 16 as the number printed |
| SavedAddresses.HexRoundTrip | pcsx2-qt/Debugger/Memory/SavedAddressesModel.cpp:86-96 | an address printed in hexadecimal parses back to the same address |
| SavedAddresses.StringToMemorySize | pcsx2-qt/Debugger/Memory/SavedAddressesModel.cpp:44-64 | the size is always one of the four enum values; text that is not a number, or a number other than 1, 2, 4 or 8, gives four bytes |
| SavedAddresses.ParseDigit | pcsx2-qt/Debugger/Memory/SavedAddressesModel.cpp:47 | a single decimal digit parses as its value |
| SavedAddresses.MemorySizeRoundTrip | pcsx2-qt/Debugger/Memory/SavedAddressesModel.cpp:27-64 | a size inside the enum survives printing and parsing, and any other size comes back as four bytes |
| SavedAddresses.HexEvaluates | pcsx2-qt/Debugger/Memory/SavedAddressesModel.cpp:86-96 | an expression that is a printed address evaluates to that address without consulting the expression evaluator |
| SavedAddresses.EvaluateAddressCases | pcsx2-qt/Debugger/Memory/SavedAddressesModel.cpp:86-105 | a blank expression gives 0; a hexadecimal number gives its value; otherwise the evaluator's result truncated to 32 bits, or 0 when it fails |
| SavedAddresses.UneditableKept | pcsx2-qt/Debugger/Memory/SavedAddressesModel.cpp:267-273 | an edit of the ADDRESS or VALUE column, which are not editable, leaves the row as it was |
| SavedAddresses.EditedRowConsistent | pcsx2-qt/Debugger/Memory/SavedAddressesModel.cpp:158-217 | an edit of any column in any role keeps a row's address equal to the evaluation of its expression |
| SavedAddresses.ReplacedConsistent | pcsx2-qt/Debugger/Memory/SavedAddressesModel.cpp:164 | replacing one row by a consistent row keeps the whole table consistent |
| SavedAddresses.EditedConsistent | pcsx2-qt/Debugger/Memory/SavedAddressesModel.cpp:158-217 | an edit of one cell keeps every address of the table equal to the evaluation of its expression |
| SavedAddresses.DefaultRowConsistent | pcsx2-qt/Debugger/Memory/SavedAddressesModel.cpp:275-279 | appending the default row keeps the table consistent, since "0" evaluates to address 0 |
| SavedAddresses.RemovedRowsShift | pcsx2-qt/Debugger/Memory/SavedAddressesModel.cpp:289-298 | after removing count rows at row, the rows before stay in place and the rows after move up by count |
| SavedAddresses.RemoveUndoesAdd | pcsx2-qt/Debugger/Memory/SavedAddressesModel.cpp:281-298 | removing the row just appended gives the previous table back |
| SavedAddresses.RemovedConsistent | pcsx2-qt/Debugger/Memory/SavedAddressesModel.cpp:289-298 | removing rows keeps the table consistent |
| SavedAddresses.ImportedConsistent | pcsx2-qt/Debugger/Memory/SavedAddressesModel.cpp:310-367 | an imported row's address is the evaluation of its expression, in all three formats |
| SavedAddresses.ImportKeepsConsistent | pcsx2-qt/Debugger/Memory/SavedAddressesModel.cpp:310-367 | loading a field list keeps the table consistent whether the line is imported or skipped |
| SavedAddresses.ExportImportRoundTrip | pcsx2-qt/Debugger/Memory/SavedAddressesModel.cpp:320-331 | a consistent row with a size inside the enum, written as the six-field format, imports back as the same row |
| SavedAddresses.LegacyImport | pcsx2-qt/Debugger/Memory/SavedAddressesModel.cpp:349-364 | a legacy three-field line holding a printed address imports with that address and four bytes |
| SavedAddresses.SavedAddressesModel.constructor | pcsx2-qt/Debugger/Memory/SavedAddressesModel.cpp:12-16 | the table starts empty |
| SavedAddresses.SavedAddressesModel.AddRow | pcsx2-qt/Debugger/Memory/SavedAddressesModel.cpp:281-287 | the row is appended after the existing ones |
| SavedAddresses.SavedAddressesModel.AddDefaultRow | pcsx2-qt/Debugger/Memory/SavedAddressesModel.cpp:275-279 | the default row ("0", address 0, four bytes, "Name", "Description") is appended |
| SavedAddresses.SavedAddressesModel.RemoveRows | pcsx2-qt/Debugger/Memory/SavedAddressesModel.cpp:289-298 | succeeds exactly when row is non-negative, count positive and the range inside the table, and then removes exactly those rows; otherwise nothing changes |
| SavedAddresses.SavedAddressesModel.SetData | pcsx2-qt/Debugger/Memory/SavedAddressesModel.cpp:158-217 | succeeds exactly for a valid row in the edit or user role and then replaces just that row by its edited version; an invalid row, the check-state role or any other role change nothing |
| SavedAddresses.SavedAddressesModel.LoadSavedAddressFromFieldList | pcsx2-qt/Debugger/Memory/SavedAddressesModel.cpp:310-367 | appends the imported row, or leaves the table as it was when the line is too short or its address does not parse |
| SavedAddresses.SavedAddressesModel.Clear | pcsx2-qt/Debugger/Memory/SavedAddressesModel.cpp:369-374 | the table becomes empty |
| SavedAddresses.SavedAddressesModel.RefreshData | pcsx2-qt/Debugger/Memory/SavedAddressesModel.cpp:376-391 | keeps the row count and every field but the address, re-evaluates each address from its expression, and leaves the table consistent |

## Left out

- GGPO itself (session start, players, input synchronisation, `ggpo_advance_frame`, `ggpo_idle`) is a foreign library. The sync-test backend's `_sync` object is reduced to a frame counter, the last saved frame, and `LoadFrame`, which sets the counter. The game's `advance_frame` callback is one frame advance plus the snapshot the host saved for it, passed in as a parameter.
- `GetFrame`, `GetConfirmedInput` and the game-body RPC sub-codes have no implementation in the source, so they are not modelled.
- `SyncTest.GdxsvSyncTestBackend.StepRollback` requires a non-empty FIFO during a rollback. Reading the front of an empty queue is undefined behaviour in the source.
- `GdxsvBackendRollback::HandleRPC` forwards reads, writes and polls to the socket operations, which are modelled. Its game-body branches (`in_game_scene_`, local input, frame advance) go to GGPO and are not modelled. Neither is `Open`, which starts a GGPO session.
- `GdxsvBackendRollback::IsReplayTest` and the GGPO callbacks are one-line getters or forwarders, so they are not modelled.
- Protobuf parsing, unknown-field reflection and the file opening in `StartReplayTest` are not modelled. The replay start takes an already parsed battle log.
- The LBS and MCS wire formats and `McsMessageReader` are not modelled. A message is an abstract value, and reading and serialising go through codec functions passed as parameters. The replies the bridge queues are opaque byte sequences built by those functions.
- `std::sort` in the roster fix-up is not stable. The model takes the sorted order that keeps equal positions in their recorded order, which is one of the orders the source may produce.
- Sockets, Winsock and the network backends are not modelled. `GdxsvDispatcher.Gdxsv.HandleRPC` receives whether a connect succeeded and the active backend's answer to a read, write or poll as parameters.
- `GenerateLoginKey` draws from a clock-seeded random generator, so the login key is a field. `GeneratePlatformInfoString` is platform text chosen by the preprocessor, so it is an opaque parameter.
- The login-key file I/O in `Gdxsv::Reset`, `Gdxsv::Update`, `Gdxsv::WritePatch` with its generated `gdxsv_patch.inc`, and `StartReplayFile` are I/O or build artefacts, so they are not modelled.
- A symbol missing from `symbols_` reads as 0 (`GdxsvDispatcher.Symbol`). The map insertion that `operator[]` performs as a side effect is not modelled.
- In main.c, the trap into the emulator (a call through code address 0x00103f30) is the `host` parameter of `GuestStubs.RpcCall`.
- The other main.c calls through fixed addresses, `net_FontDisp`, the debug printing, and `gdx_McsDispose` (which only returns 0) are not modelled.
- The `void` stubs that return values (`gdx_AvepppGetStatus`, `gdx_Ave_PppGetUsbDeviceId`, `gdx_ADNS_Finalize`, `gdx_connect_ps2_check`, `gdx_LobbyToMcsInitSocket`) appear only as hook targets. What their callers see is undefined in C.
- The hostname stubs are constant functions without contracts of their own. `GuestStubs.OpenGoesWhereDialled` states what their result means to the dispatcher.
- The stub addresses are chosen by the linker, so `GuestStubs.WritePatch` takes them as a function. The nineteen hook writes are a loop over the table of call sites, in the source's order.
- The two 128-byte name fields of `gdx_rpc_t` are not modelled. No core function reads or writes them.
- Guest memory is a little-endian byte map. `gdxsv_ReadMem16` is not modelled. `GuestMemory.Memory.Write16` stores the high byte first, exactly as `gdxsv_WriteMem16` does, and nothing claims that a 16-bit read gives the value back.
- `verify()` is `assert`. The model treats a failed verify as fatal: the operation reports failure, and the caller does not continue.
- The Qt machinery of `SavedAddressesModel` is not modelled: signals, `tr()`, `data`, `headerData`, `readMemoryValue`, `rowCount`, `columnCount`, and the `s_instances` singleton. The default row's "Name" and "Description" are untranslated.
- `SavedAddresses.ParseHex` and `SavedAddresses.ParseDecimal` accept unsigned ASCII digits after ASCII whitespace trimming. They do not model Qt's sign handling, locale or Unicode whitespace.
- The debugger's expression evaluator reads live CPU state, so it is a parameter of `SavedAddresses.EvaluateAddress`.
- `static_cast<MemorySize>(value.toInt())` in `setData` keeps any integer, so a row's size is an `int`. `SavedAddresses.MemorySizeToString` maps values outside the enum to "4", as the source's default branch does.
- `RollbackBackend.GdxsvBackendRollback.StartReplayTest` does not clear the key indices, as in the source. After a replay restarted without `Reset`, the stale indices may point past the new message list. The model's later operations require the invariant, so apart from `Reset`, which clears the indices and re-establishes it, they do not cover a bridge in that state. The invariant is promised only for a replay started on a constructed or reset bridge.
- `RollbackBackend.LbsAnswered`: a player-info request whose position lies outside 1..the number of users is a failed step. The source reads `log_file_.users(pos - 1)` without a check, which is undefined behaviour there.
- `RollbackBackend.PreparedFrom` requires at most four users in the log. The source indexes `key_msg_index_` and `start_index_`, arrays of four, by player, and a fifth user overruns them.
- `RollbackBackend.McsAnswered` requires at most four users in the log, for the same fixed arrays of four players.
- `RollbackBackend.McsProcessed` requires at most four users in the log, for the same fixed arrays of four players.
- `RollbackBackend.SockWritten` requires at most four users in the log, for the same reason. This also excludes lobby-phase writes with more users, which the source handles without undefined behaviour.
- `RollbackBackend.GdxsvBackendRollback.OnSockWrite` requires at most four users in the log for the same reason. It also requires `size <= INET_BUF_SIZE`, because a larger write overflows the `u8 buf[InetBufSize]` the source copies into.
- `RollbackBackend.GdxsvBackendRollback.maxlag` and `GdxsvDispatcher.Gdxsv.maxlag` are two separate fields. In the source the bridge's `maxlag_` is a reference to the dispatcher's `maxlag`. So the maximum lag of 1 set by a replay start is what `WritePatchDisk2` later stores at 0x00580341, and the model does not capture this aliasing.
- `Gdxsv::Reset` is not modelled as an operation. Its configuration (enable flag, login key) becomes constructor parameters, and its lobby-packet callback, which restores and re-applies patches, belongs to the lobby network backend.
- Logging, `atomic` wrappers and thread safety are not modelled. The model is sequential.
