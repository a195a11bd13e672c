/**
  `GdxsvBackendRollback`, the replay bridge: it plays a recorded battle log
  back to the game as if it were the live lobby server (LBS) and battle
  server (MCS). The game writes requests through the socket-write RPC; the
  bridge parses them, queues canned or recorded replies in `recv_buf_`, and
  the game drains that buffer through the socket-read and socket-poll RPCs.

  The specification is a value `Bridge` holding every field the bridge
  updates, and one function per operation from the old value to the new
  one; the class `GdxsvBackendRollback` performs the operations in place
  and each method is proved to agree with its function. Message formats
  are abstract (see `BattleLog` and `Codec`).
*/
module RollbackBackend {
  import opened GuestMemory
  import opened OnlinePatch
  import opened BattleLog
  import Wr = Wrappers

  /** The bridge's protocol phase; the source compares phases by their order. */
  datatype State = None | Start | LbsStartBattleFlow | McsWaitJoin | McsSessionExchange | McsInBattle | End
  {
    function Rank(): nat {
      match this
      case None => 0
      case Start => 1
      case LbsStartBattleFlow => 2
      case McsWaitJoin => 3
      case McsSessionExchange => 4
      case McsInBattle => 5
      case End => 6
    }
  }

  /** `state_ <= State::LbsStartBattleFlow`: the game is still talking to the lobby. */
  predicate InLobby(s: State) {
    s.Rank() <= LbsStartBattleFlow.Rank()
  }

  // ---------------------------------------------------------------------
  // Lobby messages and the codec.

  datatype LbsCommand =
    | LobbyMatchingEntry | AskMatchingJoin | AskPlayerSide | AskPlayerInfo | AskRuleData
    | AskBattleCode | AskMcsVersion | AskMcsAddress | Logout | OtherCommand(code: int)

  /** A lobby request: its command, sequence number, and the value its first
      payload byte reads as. */
  datatype LbsMessage = LbsMessage(command: LbsCommand, seqNo: int, param8: int)

  /** One payload item of a lobby answer. */
  datatype Field = W8(v: int) | W16(v: int) | WString(s: string) | WBytes(s: string)

  datatype LbsReply = Answer(request: LbsMessage, fields: seq<Field>) | ReadyBattleNotice

  /** Everything the bridge needs of the message formats: the two parsers,
      the lobby serialiser, `McsMessage::Create` (by type and player) and
      the pong `Create` makes once its target and count are set. */
  datatype Codec = Codec(
    mcs: McsCodec,
    parseLbs: seq<u8> -> ReadResult<LbsMessage>,
    serialize: LbsReply -> seq<u8>,
    create: (MsgType, int) -> seq<u8>,
    pong: (int, int, int) -> seq<u8>)

  /** The answer payload for a player-info request naming position `pos`. */
  function PlayerInfoFields(pos: int, u: BattleLogUser): seq<Field> {
    [W8(pos), WString(u.userId), WBytes(u.userNameSjis), WBytes(u.gameParam),
     W16(u.grade), W16(u.winCount), W16(u.loseCount), W16(0),
     W16(u.battleCount - u.winCount - u.loseCount), W16(0), W16(u.team), W16(0)]
  }

  // ---------------------------------------------------------------------
  // The bridge's state.

  datatype Bridge = Bridge(
    isReplayTest: bool,
    state: State,
    lbsTx: seq<u8>,
    mcsTx: seq<u8>,
    log: BattleLogFile,
    recvBuf: seq<u8>,
    recvDelay: int,
    me: int,
    inGameScene: int,
    msgList: seq<McsMessage>,
    startIndex: seq<int>,
    keyMsgIndex: seq<seq<int>>,
    maxlag: int)

  /** Indices that all point into `msgs`. */
  ghost predicate IndicesInRange(msgs: seq<McsMessage>, idx: seq<int>) {
    forall k :: 0 <= k < |idx| ==> 0 <= idx[k] < |msgs|
  }

  /** Indices into `msgs` of player `p`'s KeyMsg1 messages, increasing, whose
      sequence numbers go up by exactly one from each to the next (the k-th
      carries the first one's number plus k). */
  ghost predicate KeyChain(msgs: seq<McsMessage>, p: int, idx: seq<int>) {
    && IndicesInRange(msgs, idx)
    && (forall k :: 0 <= k < |idx| ==> msgs[idx[k]].kind == KeyMsg1 && msgs[idx[k]].sender == p)
    && (forall j, k :: 0 <= j < k < |idx| ==> idx[j] < idx[k])
    && (forall k :: 0 <= k < |idx| ==> msgs[idx[k]].firstSeq == msgs[idx[0]].firstSeq + k)
  }

  /** What every operation relies on: four players' start indices, never
      negative, and four key indices that point into the message list. */
  ghost predicate Shaped(b: Bridge) {
    && |b.startIndex| == 4
    && |b.keyMsgIndex| == 4
    && (forall p :: 0 <= p < 4 ==> 0 <= b.startIndex[p])
    && (forall p :: 0 <= p < 4 ==> IndicesInRange(b.msgList, b.keyMsgIndex[p]))
  }

  /** The bridge's invariant: shaped, and each player's key index a key
      chain of that player. */
  ghost predicate WellFormed(b: Bridge) {
    && Shaped(b)
    && (forall p :: 0 <= p < 4 ==> KeyChain(b.msgList, p, b.keyMsgIndex[p]))
  }

  /** Four key indices, all empty, as after a reset. */
  predicate Cleared(keyMsgIndex: seq<seq<int>>) {
    |keyMsgIndex| == 4 && forall p :: 0 <= p < 4 ==> keyMsgIndex[p] == []
  }

  /** A bridge whose key indices are all empty is well formed. */
  lemma ClearedWellFormed(b: Bridge)
    requires |b.startIndex| == 4 && forall p :: 0 <= p < 4 ==> 0 <= b.startIndex[p]
    requires |b.keyMsgIndex| == 4 && forall p :: 0 <= p < 4 ==> b.keyMsgIndex[p] == []
    ensures WellFormed(b)
  {
  }

  /** The outcome of an operation that may hit a fatal `verify`: when `ok`
      is false the process aborts and `after` means nothing. */
  datatype Step = Step(after: Bridge, ok: bool)

  // ---------------------------------------------------------------------
  // Reset, replay start, close.

  function ResetBridge(b: Bridge): Bridge {
    b.(state := None, isReplayTest := false, lbsTx := [], mcsTx := [], log := EmptyLog,
       recvBuf := [], recvDelay := 0, me := 0, msgList := [],
       keyMsgIndex := [[], [], [], []], startIndex := [0, 0, 0, 0])
  }

  /** The bridge after `StartReplayTest` has loaded the (already parsed) log. */
  function ReplayStarted(b: Bridge, c: Codec, log: BattleLogFile): Bridge {
    var users := if log.version < LEGACY_VERSION then LegacyUsers(c.mcs.parse, log) else log.users;
    b.(log := log.(users := users),
       msgList := MessageList(c.mcs, log.battleData, []),
       startIndex := [0, 0, 0, 0],
       state := Start,
       maxlag := 1,
       isReplayTest := true)
  }

  /** A replay starts in state Start with every start index 0, a maximum lag
      of 1, the recorded messages in order with each KeyMsg2 split in two,
      and, for a legacy log, the fixed-up roster sorted by position. The
      key indices are kept as they were. With a
      codec that splits KeyMsg2 properly no KeyMsg2 is left. */
  lemma ReplayStartedFacts(b: Bridge, c: Codec, log: BattleLogFile)
    ensures var a := ReplayStarted(b, c, log);
      && a.state == Start && a.maxlag == 1 && a.isReplayTest
      && a.startIndex == [0, 0, 0, 0]
      && a.msgList == ExpandedAll(c.mcs, LogMessages(c.mcs.parse, log.battleData, []))
      && (log.version < LEGACY_VERSION ==> SortedByPos(a.log.users) && |a.log.users| == |log.users|)
      && (log.version >= LEGACY_VERSION ==> a.log == log)
      && a.keyMsgIndex == b.keyMsgIndex
    ensures SplitsKeys(c.mcs) ==>
      forall k :: 0 <= k < |ReplayStarted(b, c, log).msgList| ==> ReplayStarted(b, c, log).msgList[k].kind != KeyMsg2
  {
    MessageListExpandsLog(c.mcs, log.battleData, []);
    if log.version < LEGACY_VERSION {
      LegacyUsersFixed(c.mcs.parse, log);
    }
    if SplitsKeys(c.mcs) {
      ExpandedAllHasNoKeyMsg2(c.mcs, LogMessages(c.mcs.parse, log.battleData, []));
    }
  }

  /** A replay started on a bridge whose key indices were cleared, as
      construction and `Reset` leave them, is well formed. */
  lemma ReplayStartedWellFormed(b: Bridge, c: Codec, log: BattleLogFile)
    requires Cleared(b.keyMsgIndex)
    ensures WellFormed(ReplayStarted(b, c, log))
  {
    ClearedWellFormed(ReplayStarted(b, c, log));
  }

  // ---------------------------------------------------------------------
  // Patches.

  const DC2_KEY_PUSH: u32 := 0x8c045f64
  const DC2_KEY_FLAG: u32 := 0x0c3abb90
  const PS2_KEY_PUSH: u32 := 0x0037f5a0
  const PS2_KEY_FLAG: u32 := 0x00580340

  /** The disk-specific writes that skip the game's own key-message push. */
  function DiskPatched(m: Bytes, disk: string): Bytes {
    if disk == "dc2" then Store8(Store16(m, DC2_KEY_PUSH, 9), DC2_KEY_FLAG, 1)
    else if disk == "ps2" then Store8(Store32(m, PS2_KEY_PUSH, 0), PS2_KEY_FLAG, 1)
    else m
  }

  /** The disk-specific writes that put the game's key-message push back. */
  function DiskRestored(m: Bytes, disk: string): Bytes {
    if disk == "dc2" then Store8(Store16(m, DC2_KEY_PUSH, 0x410b), DC2_KEY_FLAG, 2)
    else if disk == "ps2" then Store8(Store32(m, PS2_KEY_PUSH, 0x0c0e0be4), PS2_KEY_FLAG, 2)
    else m
  }

  /** `ApplyPatch`: nothing before a replay or after it ends; otherwise the
      disk writes, then the log's patches. */
  function PatchApplied(m: Bytes, b: Bridge, firstTime: bool): Bytes {
    if b.state == None || b.state == End then m
    else Applied(DiskPatched(m, b.log.gameDisk), b.log.patches, firstTime)
  }

  /** `RestorePatch`: the disk writes undone, then every patch's original values. */
  function PatchRestored(m: Bytes, b: Bridge): Bytes {
    Restored(DiskRestored(m, b.log.gameDisk), b.log.patches)
  }

  /** Restoring the disk writes after applying them leaves memory exactly as
      restoring alone would: apply and restore cover the same bytes. */
  lemma DiskRestoreOverridesApply(m: Bytes, disk: string, a: u32)
    ensures Load8(DiskRestored(DiskPatched(m, disk), disk), a) == Load8(DiskRestored(m, disk), a)
  {
    if disk == "dc2" {
      Store16Bytes(Store8(Store16(m, DC2_KEY_PUSH, 9), DC2_KEY_FLAG, 1), DC2_KEY_PUSH, 0x410b, a);
      Store16Bytes(m, DC2_KEY_PUSH, 0x410b, a);
      Store16Bytes(m, DC2_KEY_PUSH, 9, a);
    } else if disk == "ps2" {
      var x := Store8(Store32(m, PS2_KEY_PUSH, 0), PS2_KEY_FLAG, 1);
      WrittenBlockLoad(x, PS2_KEY_PUSH, LittleEndian32(0x0c0e0be4), a);
      WrittenBlockLoad(m, PS2_KEY_PUSH, LittleEndian32(0x0c0e0be4), a);
      WrittenBlockLoad(m, PS2_KEY_PUSH, LittleEndian32(0), a);
    }
  }

  /** On the ps2 disk the patch turns the key push off (word 0, flag 1) and
      the restore turns it back on (its original instruction, flag 2). */
  lemma Ps2KeyPushToggled(m: Bytes)
    ensures Load32(DiskPatched(m, "ps2"), PS2_KEY_PUSH) == 0
    ensures Load8(DiskPatched(m, "ps2"), PS2_KEY_FLAG) == 1
    ensures Load32(DiskRestored(m, "ps2"), PS2_KEY_PUSH) == 0x0c0e0be4
    ensures Load8(DiskRestored(m, "ps2"), PS2_KEY_FLAG) == 2
  {
    assert Disjoint(PS2_KEY_PUSH, 4, PS2_KEY_FLAG, 1) by {
      assert Offset(PS2_KEY_PUSH, PS2_KEY_FLAG) == PS2_KEY_FLAG - PS2_KEY_PUSH;
    }
    Ps2Word(Store32(m, PS2_KEY_PUSH, 0), 1);
    Ps2Word(Store32(m, PS2_KEY_PUSH, 0x0c0e0be4), 2);
    Load32Store32(m, PS2_KEY_PUSH, 0);
    Load32Store32(m, PS2_KEY_PUSH, 0x0c0e0be4);
  }

  /** Storing the ps2 flag byte leaves the ps2 key-push word alone. */
  lemma Ps2Word(m: Bytes, v: u8)
    ensures Load32(Store8(m, PS2_KEY_FLAG, v), PS2_KEY_PUSH) == Load32(m, PS2_KEY_PUSH)
  {
    assert Block(Store8(m, PS2_KEY_FLAG, v), PS2_KEY_PUSH, 4) == Block(m, PS2_KEY_PUSH, 4);
  }

  // ---------------------------------------------------------------------
  // The game-state snapshot: four player work areas of 0x2100 bytes.

  const PLAYER_WORKS: u32 := 0x00866620
  const PLAYER_WORK_SIZE: nat := 0x2100
  const SNAPSHOT_SIZE: nat := 4 * 0x2100

  function Snapshot(m: Bytes): (s: seq<u8>)
    ensures |s| == SNAPSHOT_SIZE
  {
    Block(m, PLAYER_WORKS, SNAPSHOT_SIZE)
  }

  function SnapshotLoaded(m: Bytes, s: seq<u8>): Bytes {
    WrittenBlock(m, PLAYER_WORKS, s)
  }

  /** Loading a snapshot just saved changes no byte of memory. */
  lemma SaveThenLoad(m: Bytes, a: u32)
    ensures Load8(SnapshotLoaded(m, Snapshot(m)), a) == Load8(m, a)
  {
    WriteBackUnchanged(m, PLAYER_WORKS, SNAPSHOT_SIZE, a);
  }

  /** Saving right after a load yields the loaded snapshot. */
  lemma LoadThenSave(m: Bytes, s: seq<u8>)
    requires |s| == SNAPSHOT_SIZE
    ensures Snapshot(SnapshotLoaded(m, s)) == s
  {
    ReadAfterWrite(m, PLAYER_WORKS, s);
  }

  /** A load touches only the four player work areas. */
  lemma LoadOnlyPlayerWorks(m: Bytes, s: seq<u8>, a: u32)
    requires |s| == SNAPSHOT_SIZE
    requires a < PLAYER_WORKS || PLAYER_WORKS + SNAPSHOT_SIZE <= a
    ensures Load8(SnapshotLoaded(m, s), a) == Load8(m, a)
  {
    WrittenBlockLoad(m, PLAYER_WORKS, s, a);
    if a < PLAYER_WORKS {
      assert Offset(PLAYER_WORKS, a) == a + ADDR_SPACE - PLAYER_WORKS;
    } else {
      assert Offset(PLAYER_WORKS, a) == a - PLAYER_WORKS;
    }
  }

  // ---------------------------------------------------------------------
  // The key-message index.

  /** Result of scanning the message list for one player's key messages:
      the indices found, where the scan stopped on a StartMsg (if it did),
      and whether every check passed. */
  datatype KeyScan = KeyScan(indices: seq<int>, stop: Wr.Option<int>, ok: bool)

  /** `PrepareKeyMsgIndex`'s inner loop for player `p` from message `i` on,
      with the indices `acc` already found. */
  function ScanKeys(msgs: seq<McsMessage>, p: int, i: nat, acc: seq<int>): (r: KeyScan)
    requires IndicesInRange(msgs, acc)
    ensures IndicesInRange(msgs, r.indices)
    ensures r.stop.Some? ==> i <= r.stop.value < |msgs|
    decreases |msgs| - i
  {
    if i >= |msgs| then KeyScan(acc, Wr.None, true)
    else
      var m := msgs[i];
      if m.sender != p then ScanKeys(msgs, p, i + 1, acc)
      else if acc != [] && m.kind == StartMsg then KeyScan(acc, Wr.Some(i), true)
      else if m.kind == KeyMsg1 && acc != [] && msgs[acc[|acc| - 1]].firstSeq + 1 != m.firstSeq then
        KeyScan(acc, Wr.None, false)
      else if m.kind == KeyMsg1 then ScanKeys(msgs, p, i + 1, acc + [i])
      else if m.kind == KeyMsg2 then KeyScan(acc, Wr.None, false)
      else ScanKeys(msgs, p, i + 1, acc)
  }

  /** A scan extends the key chain it starts from to a key chain. */
  lemma {:induction false} ScanKeysChain(msgs: seq<McsMessage>, p: int, i: nat, acc: seq<int>)
    requires KeyChain(msgs, p, acc)
    requires forall k :: 0 <= k < |acc| ==> acc[k] < i
    ensures KeyChain(msgs, p, ScanKeys(msgs, p, i, acc).indices)
    decreases |msgs| - i
  {
    if i < |msgs| {
      var m := msgs[i];
      if m.sender != p {
        ScanKeysChain(msgs, p, i + 1, acc);
      } else if acc != [] && m.kind == StartMsg {
      } else if m.kind == KeyMsg1 && acc != [] && msgs[acc[|acc| - 1]].firstSeq + 1 != m.firstSeq {
      } else if m.kind == KeyMsg1 {
        KeyChainExtended(msgs, p, acc, i);
        ScanKeysChain(msgs, p, i + 1, acc + [i]);
      } else if m.kind != KeyMsg2 {
        ScanKeysChain(msgs, p, i + 1, acc);
      }
    }
  }

  /** A scan that stops on a StartMsg stops on one of the player's, after at
      least one key was found, and every key found lies before it. */
  lemma {:induction false} ScanKeysStop(msgs: seq<McsMessage>, p: int, i: nat, acc: seq<int>)
    requires IndicesInRange(msgs, acc)
    requires forall k :: 0 <= k < |acc| ==> acc[k] < i
    ensures var r := ScanKeys(msgs, p, i, acc);
      r.stop.Some? ==>
        && msgs[r.stop.value].kind == StartMsg && msgs[r.stop.value].sender == p
        && r.indices != []
        && forall k :: 0 <= k < |r.indices| ==> r.indices[k] < r.stop.value
    decreases |msgs| - i
  {
    if i < |msgs| {
      var m := msgs[i];
      if m.sender != p {
        ScanKeysStop(msgs, p, i + 1, acc);
      } else if acc != [] && m.kind == StartMsg {
      } else if m.kind == KeyMsg1 && acc != [] && msgs[acc[|acc| - 1]].firstSeq + 1 != m.firstSeq {
      } else if m.kind == KeyMsg1 {
        ScanKeysStop(msgs, p, i + 1, acc + [i]);
      } else if m.kind != KeyMsg2 {
        ScanKeysStop(msgs, p, i + 1, acc);
      }
    }
  }

  /** A key chain extended by a later KeyMsg1 of the same player that
      follows its last key's sequence number is still a key chain. */
  lemma KeyChainExtended(msgs: seq<McsMessage>, p: int, acc: seq<int>, i: int)
    requires KeyChain(msgs, p, acc)
    requires forall k :: 0 <= k < |acc| ==> acc[k] < i
    requires 0 <= i < |msgs| && msgs[i].kind == KeyMsg1 && msgs[i].sender == p
    requires acc != [] ==> msgs[acc[|acc| - 1]].firstSeq + 1 == msgs[i].firstSeq
    ensures KeyChain(msgs, p, acc + [i])
    ensures forall k :: 0 <= k < |acc + [i]| ==> (acc + [i])[k] < i + 1
  {
  }

  /** The indices in [lo, hi) of player `p`'s KeyMsg1 messages, in order. */
  function KeyPositions(msgs: seq<McsMessage>, p: int, lo: int, hi: int): seq<int>
    requires hi <= |msgs|
    decreases hi - lo
  {
    if lo >= hi then []
    else if 0 <= lo && msgs[lo].kind == KeyMsg1 && msgs[lo].sender == p then [lo] + KeyPositions(msgs, p, lo + 1, hi)
    else KeyPositions(msgs, p, lo + 1, hi)
  }

  /** Where a scan ended: at its StartMsg, or at the end of the list. */
  function ScanEnd(msgs: seq<McsMessage>, r: KeyScan): int {
    if r.stop.Some? then r.stop.value else |msgs|
  }

  /** A successful scan finds every KeyMsg1 of the player from where it began
      up to where it stopped, and no others. */
  lemma {:induction false} ScanKeysComplete(msgs: seq<McsMessage>, p: int, i: nat, acc: seq<int>)
    requires IndicesInRange(msgs, acc)
    requires ScanKeys(msgs, p, i, acc).ok
    ensures var r := ScanKeys(msgs, p, i, acc);
      ScanEnd(msgs, r) <= |msgs| && r.indices == acc + KeyPositions(msgs, p, i, ScanEnd(msgs, r))
    decreases |msgs| - i
  {
    var r := ScanKeys(msgs, p, i, acc);
    var e := ScanEnd(msgs, r);
    if i < |msgs| {
      var m := msgs[i];
      if m.sender != p {
        ScanKeysComplete(msgs, p, i + 1, acc);
        assert KeyPositions(msgs, p, i, e) == KeyPositions(msgs, p, i + 1, e);
      } else if acc != [] && m.kind == StartMsg {
        assert e == i;
      } else if m.kind == KeyMsg1 {
        ScanKeysComplete(msgs, p, i + 1, acc + [i]);
        var rest := KeyPositions(msgs, p, i + 1, e);
        assert KeyPositions(msgs, p, i, e) == [i] + rest;
        assert acc + [i] + rest == acc + ([i] + rest);
      } else {
        ScanKeysComplete(msgs, p, i + 1, acc);
        assert KeyPositions(msgs, p, i, e) == KeyPositions(msgs, p, i + 1, e);
      }
    }
  }

  /** Once a key is found, no StartMsg of the player lies between where the
      scan resumes and where it ends: the first such StartMsg ends it. */
  lemma {:induction false} NoStartAfterKey(msgs: seq<McsMessage>, p: int, i: nat, acc: seq<int>)
    requires IndicesInRange(msgs, acc) && acc != []
    requires ScanKeys(msgs, p, i, acc).ok
    ensures forall j :: i <= j < ScanEnd(msgs, ScanKeys(msgs, p, i, acc)) ==>
      !(msgs[j].sender == p && msgs[j].kind == StartMsg)
    decreases |msgs| - i
  {
    if i < |msgs| {
      var m := msgs[i];
      if m.sender != p {
        NoStartAfterKey(msgs, p, i + 1, acc);
      } else if m.kind == StartMsg {
      } else if m.kind == KeyMsg1 {
        NoStartAfterKey(msgs, p, i + 1, acc + [i]);
      } else {
        NoStartAfterKey(msgs, p, i + 1, acc);
      }
    }
  }

  /** A scan that begins with no key found steps over the player's StartMsg
      messages that come before the player's first key, and only those. */
  lemma {:induction false} ScanKeysFirstStart(msgs: seq<McsMessage>, p: int, i: nat)
    requires ScanKeys(msgs, p, i, []).ok
    ensures var r := ScanKeys(msgs, p, i, []);
      forall j, k :: i <= j < ScanEnd(msgs, r) && msgs[j].sender == p && msgs[j].kind == StartMsg && 0 <= k < |r.indices| ==>
        j < r.indices[k]
    decreases |msgs| - i
  {
    if i < |msgs| {
      var m := msgs[i];
      if m.sender != p {
        ScanKeysFirstStart(msgs, p, i + 1);
      } else if m.kind == KeyMsg1 {
        assert [] + [i] == [i];
        NoStartAfterKey(msgs, p, i + 1, [i]);
      } else {
        ScanKeysFirstStart(msgs, p, i + 1);
        KeysAfter(msgs, p, i);
      }
    }
  }

  /** Every key a scan from i + 1 with no key yet finds lies after i. */
  lemma KeysAfter(msgs: seq<McsMessage>, p: int, i: nat)
    requires ScanKeys(msgs, p, i + 1, []).ok
    ensures var idx := ScanKeys(msgs, p, i + 1, []).indices; forall k :: 0 <= k < |idx| ==> i < idx[k]
  {
    var r := ScanKeys(msgs, p, i + 1, []);
    ScanKeysComplete(msgs, p, i + 1, []);
    KeyPositionsBounds(msgs, p, i + 1, ScanEnd(msgs, r));
    assert [] + KeyPositions(msgs, p, i + 1, ScanEnd(msgs, r)) == KeyPositions(msgs, p, i + 1, ScanEnd(msgs, r));
  }

  lemma {:induction false} KeyPositionsBounds(msgs: seq<McsMessage>, p: int, lo: int, hi: int)
    requires hi <= |msgs|
    ensures forall k :: 0 <= k < |KeyPositions(msgs, p, lo, hi)| ==> lo <= KeyPositions(msgs, p, lo, hi)[k] < hi
    decreases hi - lo
  {
    if lo < hi {
      KeyPositionsBounds(msgs, p, lo + 1, hi);
    }
  }

  /** A failed scan met, from where it began, a message of the player that
      is a KeyMsg2 or a KeyMsg1 whose sequence number does not follow the
      last key found. */
  lemma {:induction false} ScanKeysFailure(msgs: seq<McsMessage>, p: int, i: nat, acc: seq<int>)
    requires IndicesInRange(msgs, acc)
    requires !ScanKeys(msgs, p, i, acc).ok
    ensures var r := ScanKeys(msgs, p, i, acc);
      exists j :: i <= j < |msgs| && msgs[j].sender == p &&
        (msgs[j].kind == KeyMsg2 ||
         (msgs[j].kind == KeyMsg1 && r.indices != [] && msgs[r.indices[|r.indices| - 1]].firstSeq + 1 != msgs[j].firstSeq))
    decreases |msgs| - i
  {
    var m := msgs[i];
    if m.sender != p {
      ScanKeysFailure(msgs, p, i + 1, acc);
    } else if m.kind == KeyMsg1 && acc != [] && msgs[acc[|acc| - 1]].firstSeq + 1 != m.firstSeq {
      assert msgs[i].sender == p;
    } else if m.kind == KeyMsg1 {
      ScanKeysFailure(msgs, p, i + 1, acc + [i]);
    } else if m.kind == KeyMsg2 {
      assert msgs[i].sender == p;
    } else {
      ScanKeysFailure(msgs, p, i + 1, acc);
    }
  }

  /** `PrepareKeyMsgIndex` from player `p` on: each player's index rebuilt
      by a scan from its start index; a scan that stopped on a StartMsg moves
      the start index past it; a failed scan aborts. Only the indices and
      the start indices change. */
  function PreparedFrom(b: Bridge, p: nat): (r: Step)
    requires Shaped(b) && |b.log.users| <= 4
    ensures r.ok ==> Shaped(r.after)
    ensures r.ok ==> r.after == b.(keyMsgIndex := r.after.keyMsgIndex, startIndex := r.after.startIndex)
    decreases |b.log.users| - p
  {
    if p >= |b.log.users| then Step(b, true)
    else
      var s := ScanKeys(b.msgList, p, b.startIndex[p], []);
      if !s.ok then Step(b, false)
      else
        var start := if s.stop.Some? then b.startIndex[p := s.stop.value + 1] else b.startIndex;
        PreparedFrom(b.(keyMsgIndex := b.keyMsgIndex[p := s.indices], startIndex := start), p + 1)
  }

  /** Re-indexing keeps the bridge well formed: every index it builds is a
      key chain of its player. */
  lemma {:induction false} PreparedWellFormed(b: Bridge, p: nat)
    requires WellFormed(b) && |b.log.users| <= 4
    ensures PreparedFrom(b, p).ok ==> WellFormed(PreparedFrom(b, p).after)
    decreases |b.log.users| - p
  {
    if p < |b.log.users| {
      var s := ScanKeys(b.msgList, p, b.startIndex[p], []);
      if s.ok {
        ScanKeysChain(b.msgList, p, b.startIndex[p], []);
        var start := if s.stop.Some? then b.startIndex[p := s.stop.value + 1] else b.startIndex;
        var b' := b.(keyMsgIndex := b.keyMsgIndex[p := s.indices], startIndex := start);
        assert WellFormed(b');
        PreparedWellFormed(b', p + 1);
      }
    }
  }

  /** One player's step of `PreparedFrom`, given that player's scan. */
  lemma PreparedStep(b: Bridge, p: nat, indices: seq<int>, stop: Wr.Option<int>, ok: bool)
    requires Shaped(b) && p < |b.log.users| <= 4
    requires KeyScan(indices, stop, ok) == ScanKeys(b.msgList, p, b.startIndex[p], [])
    ensures !ok ==> !PreparedFrom(b, p).ok
    ensures ok ==>
      var b' := b.(keyMsgIndex := b.keyMsgIndex[p := indices],
                   startIndex := if stop.Some? then b.startIndex[p := stop.value + 1] else b.startIndex);
      Shaped(b') && PreparedFrom(b, p) == PreparedFrom(b', p + 1)
  {
  }

  /** The s-th key message indexed for player `p` is a KeyMsg1 of that
      player carrying the first indexed sequence number plus s. */
  lemma {:induction false} IndexedKeySequence(msgs: seq<McsMessage>, p: int, idx: seq<int>, s: nat)
    requires KeyChain(msgs, p, idx) && s < |idx|
    ensures msgs[idx[s]].kind == KeyMsg1 && msgs[idx[s]].sender == p
    ensures msgs[idx[s]].firstSeq == msgs[idx[0]].firstSeq + s
  {
    if s > 0 {
      IndexedKeySequence(msgs, p, idx, s - 1);
    }
  }

  // ---------------------------------------------------------------------
  // Lobby processing.

  function Replied(b: Bridge, c: Codec, m: LbsMessage, fields: seq<Field>): Bridge {
    b.(recvBuf := b.recvBuf + c.serialize(Answer(m, fields)))
  }

  /** The answer to one lobby request, after it has been read. */
  function LbsAnswered(b: Bridge, c: Codec, m: LbsMessage): Step {
    match m.command
    case LobbyMatchingEntry =>
      Step(b.(recvBuf := b.recvBuf + c.serialize(Answer(m, [])) + c.serialize(ReadyBattleNotice)), true)
    case AskMatchingJoin => Step(Replied(b, c, m, [W8(|b.log.users|)]), true)
    case AskPlayerSide => Step(Replied(b.(me := 0), c, m, [W8(1)]), true)
    case AskPlayerInfo =>
      var pos := m.param8;
      if 1 <= pos <= |b.log.users| then Step(Replied(b, c, m, PlayerInfoFields(pos, b.log.users[pos - 1])), true)
      else Step(b, false)
    case AskRuleData => Step(Replied(b, c, m, [WBytes(b.log.ruleBin)]), true)
    case AskBattleCode => Step(Replied(b, c, m, [WBytes(b.log.battleCode)]), true)
    case AskMcsVersion => Step(Replied(b, c, m, [W8(10)]), true)
    case AskMcsAddress => Step(Replied(b, c, m, [W16(4), W8(127), W8(0), W8(0), W8(1), W16(2), W16(3333)]), true)
    case Logout => Step(b.(state := McsWaitJoin), true)
    case OtherCommand(_) => Step(b, true)
  }

  /** The bridge after the ready-battle notice that opens a replay, if it is
      still in state Start. */
  function LbsOpened(b: Bridge, c: Codec): Bridge {
    if b.state == Start then
      b.(recvBuf := b.recvBuf + c.serialize(ReadyBattleNotice), recvDelay := 1, state := LbsStartBattleFlow)
    else b
  }

  /** `ProcessLbsMessage`: the opening notice, then at most one request read
      and answered, which also delays the next poll by one. */
  function LbsProcessed(b: Bridge, c: Codec): Step {
    var b1 := LbsOpened(b, c);
    var (msg, rest) := ReadFrom(c.parseLbs, b1.lbsTx);
    if msg.None? then Step(b1, true)
    else LbsAnswered(b1.(lbsTx := rest, recvDelay := 1), c, msg.value)
  }

  /** Lobby processing as the socket requests run it: only in the lobby phase. */
  function Lobby(b: Bridge, c: Codec): Step {
    if InLobby(b.state) then LbsProcessed(b, c) else Step(b, true)
  }

  /** Lobby processing only appends to the receive buffer, and from state
      Start it first queues the ready-battle notice. */
  lemma LbsAppends(b: Bridge, c: Codec)
    ensures var s := LbsProcessed(b, c);
      s.ok ==> |b.recvBuf| <= |s.after.recvBuf| && s.after.recvBuf[..|b.recvBuf|] == b.recvBuf
    ensures b.state == Start ==>
      LbsProcessed(b, c).after.recvBuf[..|b.recvBuf| + |c.serialize(ReadyBattleNotice)|]
        == b.recvBuf + c.serialize(ReadyBattleNotice)
  {
    var b1 := LbsOpened(b, c);
    assert |b.recvBuf| <= |b1.recvBuf| && b1.recvBuf[..|b.recvBuf|] == b.recvBuf;
    var (msg, rest) := ReadFrom(c.parseLbs, b1.lbsTx);
    if msg.Some? {
      var s := LbsProcessed(b, c);
      if s.ok {
        assert s.after.recvBuf[..|b1.recvBuf|] == b1.recvBuf;
        assert s.after.recvBuf[..|b.recvBuf|] == b1.recvBuf[..|b.recvBuf|];
      }
      if b.state == Start {
        var n := |b.recvBuf| + |c.serialize(ReadyBattleNotice)|;
        assert s.after.recvBuf[..n] == b1.recvBuf[..n] == b1.recvBuf;
      }
    }
  }

  /** Start moves to LbsStartBattleFlow with the poll delayed, a logout moves
      to McsWaitJoin, any request read sets the delay to 1 and is consumed,
      and with nothing pending nothing changes after the opening. */
  lemma LbsTransitions(b: Bridge, c: Codec)
    ensures var b1 := LbsOpened(b, c); var (msg, rest) := ReadFrom(c.parseLbs, b1.lbsTx);
      && (msg.None? ==> LbsProcessed(b, c) == Step(b1, true))
      && (msg.Some? && LbsProcessed(b, c).ok ==> LbsProcessed(b, c).after.recvDelay == 1 && LbsProcessed(b, c).after.lbsTx == rest)
      && (msg.Some? && msg.value.command == Logout ==> LbsProcessed(b, c).after.state == McsWaitJoin)
      && (msg.Some? && msg.value.command != Logout && LbsProcessed(b, c).ok ==> LbsProcessed(b, c).after.state == b1.state)
      && (b.state == Start ==> b1.state == LbsStartBattleFlow && b1.recvDelay == 1)
  {
  }

  /** Lobby processing changes only the receive buffer, the delay, the
      phase, the lobby stream and the player's own position. */
  lemma LbsFrame(b: Bridge, c: Codec)
    ensures var s := LbsProcessed(b, c);
      s.ok ==> s.after == b.(recvBuf := s.after.recvBuf, recvDelay := s.after.recvDelay, state := s.after.state,
                             lbsTx := s.after.lbsTx, me := s.after.me)
  {
    var b1 := LbsOpened(b, c);
    var (msg, rest) := ReadFrom(c.parseLbs, b1.lbsTx);
    if msg.Some? {
      LbsAnsweredFrame(b1.(lbsTx := rest, recvDelay := 1), c, msg.value);
    }
  }

  /** Answering a lobby request changes only the receive buffer, the phase
      and the player's own position. */
  lemma LbsAnsweredFrame(b: Bridge, c: Codec, m: LbsMessage)
    ensures var s := LbsAnswered(b, c, m);
      s.ok ==> s.after == b.(recvBuf := s.after.recvBuf, state := s.after.state, me := s.after.me)
  {
  }

  /** The lobby's ready-battle flow never moves the phase backwards. */
  lemma LobbyNeverGoesBack(b: Bridge, c: Codec)
    requires InLobby(b.state)
    ensures var s := LbsProcessed(b, c); s.ok ==> b.state.Rank() <= s.after.state.Rank()
  {
  }

  // ---------------------------------------------------------------------
  // Battle-server processing.

  /** The reply player `i` sends when the game sends a message of kind `kind`. */
  function PlayerMessage(c: Codec, kind: MsgType, pingCount: int, me: int, i: int): seq<u8> {
    if kind == PingMsg then c.pong(i, me, pingCount) else c.create(kind, i)
  }

  /** The replies of players 0 .. n-1 other than `me`, in player order. */
  function Broadcast(c: Codec, kind: MsgType, pingCount: int, me: int, n: nat): seq<u8>
    decreases n
  {
    if n == 0 then []
    else Broadcast(c, kind, pingCount, me, n - 1) + (if n - 1 != me then PlayerMessage(c, kind, pingCount, me, n - 1) else [])
  }

  /** KeyMsg1 messages created for every player 0 .. n-1, `me` included. */
  function LiveKeys(c: Codec, n: nat): seq<u8>
    decreases n
  {
    if n == 0 then [] else LiveKeys(c, n - 1) + c.create(KeyMsg1, n - 1)
  }

  /** For every player 0 .. n-1 with an s-th indexed key message, its body. */
  function ReplayedKeys(b: Bridge, s: nat, n: nat): seq<u8>
    requires Shaped(b) && n <= 4
    decreases n
  {
    if n == 0 then []
    else
      var idx := b.keyMsgIndex[n - 1];
      ReplayedKeys(b, s, n - 1) + (if s < |idx| then b.msgList[idx[s]].body else [])
  }

  /** The players 0 .. n-1 other than `me`, in order. */
  function Others(me: int, n: nat): seq<int>
    decreases n
  {
    if n == 0 then [] else Others(me, n - 1) + (if n - 1 != me then [n - 1] else [])
  }

  /** The replies of the given players, in the order given. */
  function Replies(c: Codec, kind: MsgType, pingCount: int, me: int, players: seq<int>): seq<u8>
    decreases |players|
  {
    if players == [] then []
    else Replies(c, kind, pingCount, me, players[..|players| - 1]) + PlayerMessage(c, kind, pingCount, me, players[|players| - 1])
  }

  /** A broadcast is one reply from each player other than `me`, in player order. */
  lemma {:induction false} BroadcastReplies(c: Codec, kind: MsgType, pingCount: int, me: int, n: nat)
    ensures Broadcast(c, kind, pingCount, me, n) == Replies(c, kind, pingCount, me, Others(me, n))
    decreases n
  {
    if n > 0 {
      BroadcastReplies(c, kind, pingCount, me, n - 1);
      var prev := Others(me, n - 1);
      if n - 1 != me {
        assert (prev + [n - 1])[..|prev|] == prev;
      } else {
        assert prev + [] == prev;
      }
    }
  }

  /** With `me` not among players 0 .. n-1, every one of them replies. */
  lemma {:induction false} OthersAll(me: int, n: nat)
    requires me < 0 || n <= me
    ensures |Others(me, n)| == n && forall k :: 0 <= k < n ==> Others(me, n)[k] == k
    decreases n
  {
    if n > 0 {
      OthersAll(me, n - 1);
    }
  }

  /** With `me` among players 0 .. n-1, exactly the n-1 others reply: the
      k-th reply comes from player k below `me` and from player k+1 from
      `me` on. */
  lemma {:induction false} OthersOnePerOther(me: int, n: nat)
    requires 0 <= me < n
    ensures |Others(me, n)| == n - 1
    ensures forall k :: 0 <= k < n - 1 ==> Others(me, n)[k] == if k < me then k else k + 1
    decreases n
  {
    if me == n - 1 {
      OthersAll(me, n - 1);
      assert Others(me, n) == Others(me, n - 1) + [];
    } else {
      OthersOnePerOther(me, n - 1);
    }
  }

  /** A replayed key message for player `i` is that player's KeyMsg1 whose
      sequence number is the first indexed one plus the requested offset. */
  lemma ReplayedKeyIsPlayers(b: Bridge, i: int, s: nat)
    requires WellFormed(b) && 0 <= i < 4 && s < |b.keyMsgIndex[i]|
    ensures var m := b.msgList[b.keyMsgIndex[i][s]];
      m.kind == KeyMsg1 && m.sender == i && m.firstSeq == b.msgList[b.keyMsgIndex[i][0]].firstSeq + s
  {
    IndexedKeySequence(b.msgList, i, b.keyMsgIndex[i], s);
  }

  function Received(b: Bridge, bytes: seq<u8>): Bridge {
    b.(recvBuf := b.recvBuf + bytes)
  }

  /** The answer to one battle-server message, after it has been read;
      `syncOk` is whether the rollback session delivered inputs. */
  function McsAnswered(b: Bridge, c: Codec, m: McsMessage, syncOk: bool): Step
    requires Shaped(b) && |b.log.users| <= 4
  {
    var n := |b.log.users|;
    match m.kind
    case ConnectionIdMsg => Step(b.(state := McsInBattle), true)
    case IntroMsg => Step(Received(b, Broadcast(c, IntroMsg, 0, b.me, n)), true)
    case IntroMsgReturn => Step(Received(b, Broadcast(c, IntroMsgReturn, 0, b.me, n)), true)
    case PingMsg => Step(Received(b, Broadcast(c, PingMsg, m.pingCount, b.me, n)), true)
    case PongMsg => Step(b, true)
    case StartMsg => PreparedFrom(Received(b, Broadcast(c, StartMsg, 0, b.me, n)).(inGameScene := 0), 0)
    case ForceMsg => Step(b, true)
    case KeyMsg1 =>
      if b.inGameScene != 0 then
        Step(if syncOk then Received(b, LiveKeys(c, n)) else b, true)
      else Step(Received(b, ReplayedKeys(b, m.firstSeq, n)), true)
    case KeyMsg2 => Step(b, false)
    case LoadStartMsg => Step(Received(b, Broadcast(c, LoadStartMsg, 0, b.me, n)), true)
    case LoadEndMsg => Step(Received(b, Broadcast(c, LoadEndMsg, 0, b.me, n)), true)
    case OtherMsg => Step(b, true)
  }

  /** `ProcessMcsMessage`: at most one message read from the game and answered. */
  function McsProcessed(b: Bridge, c: Codec, syncOk: bool): Step
    requires Shaped(b) && |b.log.users| <= 4
  {
    var (msg, rest) := ReadFrom(c.mcs.parse, b.mcsTx);
    if msg.None? then Step(b, true)
    else McsAnswered(b.(mcsTx := rest), c, msg.value, syncOk)
  }

  /** Battle-server processing keeps the bridge well formed, keeps the
      message list and the log, and moves the phase only to McsInBattle. */
  lemma McsProcessedKeeps(b: Bridge, c: Codec, syncOk: bool)
    requires WellFormed(b) && |b.log.users| <= 4
    ensures var s := McsProcessed(b, c, syncOk);
      s.ok ==> && WellFormed(s.after)
               && (s.after.state == b.state || s.after.state == McsInBattle)
               && s.after.msgList == b.msgList && s.after.log == b.log
  {
    var (msg, rest) := ReadFrom(c.mcs.parse, b.mcsTx);
    var s := McsProcessed(b, c, syncOk);
    if msg.Some? && s.ok {
      var b1 := b.(mcsTx := rest);
      if msg.value.kind == StartMsg {
        var b2 := Received(b1, Broadcast(c, StartMsg, 0, b1.me, |b1.log.users|)).(inGameScene := 0);
        SameIndicesWellFormed(b, b2);
        PreparedWellFormed(b2, 0);
      } else {
        assert s.after.msgList == b.msgList && s.after.log == b.log;
        assert s.after.keyMsgIndex == b.keyMsgIndex && s.after.startIndex == b.startIndex;
        SameIndicesWellFormed(b, s.after);
      }
    }
  }

  /** Well-formedness depends only on the message list and the indices. */
  lemma SameIndicesWellFormed(b: Bridge, b': Bridge)
    requires WellFormed(b)
    requires b'.msgList == b.msgList && b'.keyMsgIndex == b.keyMsgIndex && b'.startIndex == b.startIndex
    ensures WellFormed(b')
  {
  }

  /** Battle-server processing only appends to the receive buffer. */
  lemma McsProcessedAppends(b: Bridge, c: Codec, syncOk: bool)
    requires Shaped(b) && |b.log.users| <= 4
    ensures var s := McsProcessed(b, c, syncOk);
      s.ok ==> |b.recvBuf| <= |s.after.recvBuf| && s.after.recvBuf[..|b.recvBuf|] == b.recvBuf
  {
    var (msg, rest) := ReadFrom(c.mcs.parse, b.mcsTx);
    var s := McsProcessed(b, c, syncOk);
    if msg.Some? && s.ok {
      assert |b.recvBuf| <= |s.after.recvBuf|;
      assert s.after.recvBuf[..|b.recvBuf|] == b.recvBuf;
    }
  }

  /** Battle-server processing fails on a KeyMsg2, succeeds on any message
      but a KeyMsg2 or a StartMsg (whose re-indexing may fail), and with
      nothing to read changes nothing. */
  lemma McsProcessedFails(b: Bridge, c: Codec, syncOk: bool)
    requires Shaped(b) && |b.log.users| <= 4
    ensures var (msg, rest) := ReadFrom(c.mcs.parse, b.mcsTx);
      && (msg.Some? && msg.value.kind == KeyMsg2 ==> !McsProcessed(b, c, syncOk).ok)
      && (msg.Some? && msg.value.kind !in {KeyMsg2, StartMsg} ==> McsProcessed(b, c, syncOk).ok)
      && (msg.None? ==> McsProcessed(b, c, syncOk) == Step(b, true))
  {
  }

  // ---------------------------------------------------------------------
  // The socket requests.

  /** The guest's socket buffer holds at most this many bytes. */
  const INET_BUF_SIZE: nat := 1024

  /** `OnSockWrite` after the bytes are copied: queued to the lobby or the
      battle-server stream by phase, then processed. */
  function SockWritten(b: Bridge, c: Codec, data: seq<u8>, syncOk: bool): Step
    requires Shaped(b) && |b.log.users| <= 4
  {
    if InLobby(b.state) then LbsProcessed(b.(lbsTx := b.lbsTx + data), c)
    else McsProcessed(b.(mcsTx := b.mcsTx + data), c, syncOk)
  }

  /** A socket write never moves the phase backwards unless the replay had
      already ended. */
  lemma SockWriteNeverGoesBack(b: Bridge, c: Codec, data: seq<u8>, syncOk: bool)
    requires WellFormed(b) && |b.log.users| <= 4 && b.state != End
    ensures var s := SockWritten(b, c, data, syncOk); s.ok ==> b.state.Rank() <= s.after.state.Rank()
  {
    if !InLobby(b.state) {
      SameIndicesWellFormed(b, b.(mcsTx := b.mcsTx + data));
      McsProcessedKeeps(b.(mcsTx := b.mcsTx + data), c, syncOk);
    }
  }

  /** What one socket read does: the bridge after it, whether it survived,
      the bytes handed to the guest and the response. */
  datatype SockReadResult = SockReadResult(after: Bridge, ok: bool, delivered: seq<u8>, response: u32)

  /** `OnSockRead`: lobby processing in the lobby phase, then up to `size`
      bytes (the size read as a signed `int`) taken from the head of the
      buffer; the response is that count cast back to `u32`. */
  function SockRead(b: Bridge, c: Codec, size: u32): SockReadResult {
    var s := Lobby(b, c);
    var buf := s.after.recvBuf;
    if !s.ok then SockReadResult(s.after, false, [], 0)
    else if buf == [] then SockReadResult(s.after, true, [], 0)
    else
      var n := Min(|buf|, ToInt32(size));
      var k := if n < 0 then 0 else n;
      SockReadResult(s.after.(recvBuf := buf[k..]), true, buf[..k], ToU32(n))
  }

  /** A read hands the guest the oldest buffered bytes, min(buffered, size)
      of them, removes exactly those, reports their count, and reports 0
      when nothing is buffered. */
  lemma SockReadFifo(b: Bridge, c: Codec, size: u32)
    requires size < 0x8000_0000
    ensures var s := Lobby(b, c); var r := SockRead(b, c, size);
      r.ok == s.ok &&
      (r.ok ==> && r.delivered + r.after.recvBuf == s.after.recvBuf
                && |r.delivered| == Min(|s.after.recvBuf|, size)
                && r.response == |r.delivered|
                && r.after == s.after.(recvBuf := r.after.recvBuf))
  {
    var s := Lobby(b, c);
    var buf := s.after.recvBuf;
    if s.ok && buf != [] {
      var n := Min(|buf|, ToInt32(size));
      assert buf[..n] + buf[n..] == buf;
    }
  }

  datatype PollResult = PollResult(after: Bridge, ok: bool, response: u32)

  /** `OnSockPoll`: lobby processing in the lobby phase; then a pending delay
      is counted down and answered with 0, or the buffered byte count is
      reported. */
  function SockPolled(b: Bridge, c: Codec): PollResult {
    var s := Lobby(b, c);
    if !s.ok then PollResult(s.after, false, 0)
    else if 0 < s.after.recvDelay then PollResult(s.after.(recvDelay := s.after.recvDelay - 1), true, 0)
    else PollResult(s.after, true, ToU32(|s.after.recvBuf|))
  }

  /** A poll consumes nothing; while a delay is pending it answers 0 and
      counts the delay down by one, and otherwise it answers the number of
      buffered bytes. */
  lemma SockPollDelays(b: Bridge, c: Codec)
    ensures var s := Lobby(b, c); var r := SockPolled(b, c);
      r.ok == s.ok &&
      (r.ok ==> && r.after.recvBuf == s.after.recvBuf
                && (0 < s.after.recvDelay ==> r.response == 0 && r.after.recvDelay == s.after.recvDelay - 1)
                && (s.after.recvDelay <= 0 ==>
                      r.after == s.after && (|s.after.recvBuf| < ADDR_SPACE ==> r.response == |s.after.recvBuf|)))
  {
  }

  /** After the lobby has answered a request, the very next poll answers 0:
      the game sees the reply one poll late. */
  lemma LobbyReplyIsDelayed(b: Bridge, c: Codec)
    requires InLobby(b.state)
    requires ReadFrom(c.parseLbs, LbsOpened(b, c).lbsTx).0.Some?
    requires LbsProcessed(b, c).ok
    ensures SockPolled(LbsProcessed(b, c).after, c).response == 0
  {
    var a := LbsProcessed(b, c).after;
    assert a.recvDelay == 1;
    if InLobby(a.state) {
      LbsTransitions(a, c);
    }
  }

  // ---------------------------------------------------------------------
  // The loops of `StartReplayTest` and `PrepareKeyMsgIndex`, which only
  // compute values.

  /** The legacy position scan: each user's first PingMsg, read with one
      reader across the records, gives that user's player position; the
      scan stops once every user is placed. */
  method ScanPlayerPositions(parse: seq<u8> -> ReadResult<McsMessage>, data: seq<BattleLogMessage>, nUsers: int)
    returns (positions: map<string, int>)
    ensures positions == PositionScan(parse, data, nUsers, 0, [], map[])
  {
    positions := map[];
    var pending: seq<u8> := [];
    var i := 0;
    while i < |data|
      invariant 0 <= i <= |data|
      invariant PositionScan(parse, data, nUsers, i, pending, positions) == PositionScan(parse, data, nUsers, 0, [], map[])
    {
      var d := data[i];
      if d.userId !in positions {
        pending := pending + d.body;
        ghost var found := PingSearch(parse, pending);
        ghost var before := positions;
        while true
          invariant PingSearch(parse, pending) == found
          invariant positions == before
          decreases |pending|
        {
          var (m, rest) := ReadFrom(parse, pending);
          pending := rest;
          if m.None? {
            break;
          }
          if m.value.kind == PingMsg {
            positions := positions[d.userId := m.value.sender];
            break;
          }
        }
        assert pending == found.1;
        assert positions == if found.0.Some? then before[d.userId := found.0.value] else before;
      }
      if nUsers == |positions| {
        return;
      }
      i := i + 1;
    }
  }

  /** The legacy roster fix-up, user by user: position, team, grade and
      display name derived from the scanned positions. */
  method FixUpUsers(users: seq<BattleLogUser>, positions: map<string, int>) returns (fixed: seq<BattleLogUser>)
    ensures fixed == FixedUsers(users, positions)
  {
    fixed := users;
    for k := 0 to |fixed|
      invariant |fixed| == |users|
      invariant forall j :: 0 <= j < k ==> fixed[j] == FixedUser(users[j], PositionOf(positions, users[j].userId))
      invariant forall j :: k <= j < |fixed| ==> fixed[j] == users[j]
    {
      // Looking up a user the scan did not place reads position 0.
      var pos := PositionOf(positions, fixed[k].userId);
      var u := fixed[k];
      u := u.(pos := pos + 1);
      u := u.(team := 1 + CDiv(pos, 2));
      u := u.(grade := Min(14, CDiv(u.winCount, 100)));
      u := u.(userNameSjis := u.userId);
      fixed := fixed[k := u];
    }
  }

  /** One drain of the reader: messages read until none is complete, each
      KeyMsg2 split into its two keys, and the bytes left over. */
  method DrainReader(c: McsCodec, pending: seq<u8>) returns (msgs: seq<McsMessage>, left: seq<u8>)
    ensures msgs == Drained(c, pending).0 && left == Drained(c, pending).1
  {
    msgs := [];
    left := pending;
    while true
      invariant msgs + Drained(c, left).0 == Drained(c, pending).0
      invariant Drained(c, left).1 == Drained(c, pending).1
      decreases |left|
    {
      var read := ReadFrom(c.parse, left);
      DrainStep(c, msgs, left);
      if read.0.None? {
        break;
      }
      var m := read.0.value;
      if m.kind == KeyMsg2 {
        msgs := msgs + [c.firstKey(m)];
        msgs := msgs + [c.secondKey(m)];
      } else {
        msgs := msgs + [m];
      }
      left := read.1;
    }
  }

  /** One read of a drain, seen from the messages already taken. */
  lemma DrainStep(c: McsCodec, msgs: seq<McsMessage>, pending: seq<u8>)
    ensures var read := ReadFrom(c.parse, pending);
      && (read.0.None? ==> msgs + Drained(c, pending).0 == msgs && Drained(c, pending).1 == pending)
      && (read.0.Some? ==>
            && msgs + Drained(c, pending).0 == msgs + Expanded(c, read.0.value) + Drained(c, read.1).0
            && Drained(c, pending).1 == Drained(c, read.1).1)
      && (read.0.Some? && read.0.value.kind == KeyMsg2 ==>
            msgs + Expanded(c, read.0.value) == msgs + [c.firstKey(read.0.value)] + [c.secondKey(read.0.value)])
      && (read.0.Some? && read.0.value.kind != KeyMsg2 ==>
            msgs + Expanded(c, read.0.value) == msgs + [read.0.value])
  {
    var read := ReadFrom(c.parse, pending);
    if read.0.Some? {
      var e := Expanded(c, read.0.value);
      var d := Drained(c, read.1).0;
      assert msgs + (e + d) == msgs + e + d;
    } else {
      assert msgs + [] == msgs;
    }
  }

  /** The roster `StartReplayTest` keeps: a legacy log's users placed,
      fixed up and sorted; any other log's users as recorded. */
  method ReplayUsers(parse: seq<u8> -> ReadResult<McsMessage>, log: BattleLogFile) returns (users: seq<BattleLogUser>)
    ensures users == if log.version < LEGACY_VERSION then LegacyUsers(parse, log) else log.users
  {
    users := log.users;
    if log.version < LEGACY_VERSION {
      var positions := ScanPlayerPositions(parse, log.battleData, |log.users|);
      var fixed := FixUpUsers(log.users, positions);
      users := SortByPos(fixed);
    }
  }

  /** The message list: every record's bytes fed to one reader, which is
      drained after each record. */
  method ReadMessageList(c: McsCodec, data: seq<BattleLogMessage>) returns (msgs: seq<McsMessage>)
    ensures msgs == MessageList(c, data, [])
  {
    msgs := [];
    var pending: seq<u8> := [];
    for i := 0 to |data|
      invariant msgs + MessageList(c, data[i..], pending) == MessageList(c, data, [])
    {
      assert data[i..][0] == data[i] && data[i..][1..] == data[i + 1..];
      var drained, left := DrainReader(c, pending + data[i].body);
      assert MessageList(c, data[i..], pending) == drained + MessageList(c, data[i + 1..], left);
      assert msgs + drained + MessageList(c, data[i + 1..], left)
          == msgs + (drained + MessageList(c, data[i + 1..], left));
      msgs := msgs + drained;
      pending := left;
    }
    assert data[|data|..] == [];
  }

  /** Every per-player list emptied. */
  method ClearAll(lists: seq<seq<int>>) returns (cleared: seq<seq<int>>)
    ensures |cleared| == |lists| && forall i :: 0 <= i < |cleared| ==> cleared[i] == []
  {
    cleared := lists;
    for i := 0 to |cleared|
      invariant |cleared| == |lists|
      invariant forall j :: 0 <= j < i ==> cleared[j] == []
    {
      cleared := cleared[i := []];
    }
  }

  /** One player's pass of `PrepareKeyMsgIndex`: the key indices found from
      `start` on, where the pass stopped on a StartMsg, and whether every
      check passed. */
  method IndexPlayerKeys(msgs: seq<McsMessage>, p: int, start: nat) returns (indices: seq<int>, stop: Wr.Option<int>, ok: bool)
    ensures KeyScan(indices, stop, ok) == ScanKeys(msgs, p, start, [])
  {
    indices := [];
    stop := Wr.None;
    var i: nat := start;
    while i < |msgs|
      invariant IndicesInRange(msgs, indices)
      invariant ScanKeys(msgs, p, i, indices) == ScanKeys(msgs, p, start, [])
      decreases |msgs| - i
    {
      var msg := msgs[i];
      if msg.sender == p {
        if indices != [] {
          if msg.kind == StartMsg {
            return indices, Wr.Some(i), true;
          }
        }
        if msg.kind == KeyMsg1 {
          if indices != [] {
            if msgs[indices[|indices| - 1]].firstSeq + 1 != msg.firstSeq {
              return indices, Wr.None, false;
            }
          }
          indices := indices + [i];
        }
        if msg.kind == KeyMsg2 {
          return indices, Wr.None, false;
        }
      }
      i := i + 1;
    }
    ok := true;
  }

  /** `PrepareKeyMsgIndex` over the bridge's values: every player's index
      rebuilt in turn, and the new indices and start indices. */
  method PrepareIndices(b: Bridge) returns (index: seq<seq<int>>, start: seq<int>, ok: bool)
    requires Shaped(b) && |b.log.users| <= 4
    ensures ok == PreparedFrom(b, 0).ok
    ensures ok ==> PreparedFrom(b, 0).after == b.(keyMsgIndex := index, startIndex := start)
  {
    index := b.keyMsgIndex;
    start := b.startIndex;
    ghost var cur := b;
    var p := 0;
    while p < |b.log.users|
      invariant 0 <= p <= |b.log.users|
      invariant cur == b.(keyMsgIndex := index, startIndex := start)
      invariant Shaped(cur) && PreparedFrom(cur, p) == PreparedFrom(b, 0)
    {
      // The player's index is rebuilt from empty.
      var indices, stop, scanOk := IndexPlayerKeys(b.msgList, p, start[p]);
      PreparedStep(cur, p, indices, stop, scanOk);
      if !scanOk {
        return index, start, false;
      }
      index := index[p := indices];
      if stop.Some? {
        start := start[p := stop.value + 1];
      }
      cur := cur.(keyMsgIndex := index, startIndex := start);
      p := p + 1;
    }
    ok := true;
  }

  /** The delivery loop of `OnSockRead`: the head of `buf` popped byte by
      byte into guest memory from `addr` on, `n` times (none when `n` is
      negative); what is left of `buf` is returned. */
  method PopInto(mem: Memory, addr: u32, buf: seq<u8>, n: int) returns (rest: seq<u8>)
    requires n <= |buf|
    modifies mem
    ensures var k := if n < 0 then 0 else n;
      rest == buf[k..] && mem.bytes == WrittenBlock(old(mem.bytes), addr, buf[..k])
  {
    rest := buf;
    var i := 0;
    while i < n
      invariant 0 <= i <= |buf| && (i <= n || i == 0)
      invariant rest == buf[i..]
      invariant mem.bytes == WrittenBlock(old(mem.bytes), addr, buf[..i])
    {
      mem.Write8(AddrAdd(addr, i), rest[0]);
      assert buf[..i + 1][..i] == buf[..i];
      rest := rest[1..];
      i := i + 1;
    }
  }

  // ---------------------------------------------------------------------
  // The bridge object.

  class GdxsvBackendRollback {
    /** Guest memory, shared with the emulator. */
    const mem: Memory
    const codec: Codec

    /** The dispatcher's maximum lag, which the bridge sets on a replay start. */
    var maxlag: int
    var isReplayTest: bool
    var state: State
    var lbsTx: seq<u8>
    var mcsTx: seq<u8>
    var log: BattleLogFile
    var recvBuf: seq<u8>
    var recvDelay: int
    var me: int
    var inGameScene: int
    var msgList: seq<McsMessage>
    var startIndex: seq<int>
    var keyMsgIndex: seq<seq<int>>

    function Model(): Bridge
      reads this
    {
      Bridge(isReplayTest, state, lbsTx, mcsTx, log, recvBuf, recvDelay, me, inGameScene,
             msgList, startIndex, keyMsgIndex, maxlag)
    }

    ghost predicate Valid()
      reads this
    {
      WellFormed(Model())
    }

    constructor(mem: Memory, codec: Codec, maxlag: int)
      ensures this.mem == mem && this.codec == codec
      ensures Model() == Bridge(false, None, [], [], EmptyLog, [], 0, 0, 0, [], [0, 0, 0, 0], [[], [], [], []], maxlag)
      ensures Valid()
    {
      this.mem := mem;
      this.codec := codec;
      this.maxlag := maxlag;
      isReplayTest := false;
      state := None;
      lbsTx := [];
      mcsTx := [];
      log := EmptyLog;
      recvBuf := [];
      recvDelay := 0;
      me := 0;
      inGameScene := 0;
      msgList := [];
      startIndex := [0, 0, 0, 0];
      keyMsgIndex := [[], [], [], []];
    }

    /** Undoes the patches of the current log, then clears every container
        and returns to state None. It needs only the four key indices the
        source's fixed array has, so it also repairs a bridge whose indices
        a restarted replay left stale. */
    method Reset()
      requires |keyMsgIndex| == 4
      modifies this, mem
      ensures mem.bytes == PatchRestored(old(mem.bytes), old(Model()))
      ensures Model() == ResetBridge(old(Model()))
      ensures Valid()
    {
      RestorePatch();
      ClearSession();
      ClearIndices();
      ClearedWellFormed(Model());
    }

    /** `Reset`'s first half: the phase, the streams, the log and the
        receive buffer cleared. */
    method ClearSession()
      modifies this
      ensures Model() == old(Model()).(state := None, isReplayTest := false, lbsTx := [], mcsTx := [],
                                       log := EmptyLog, recvBuf := [])
    {
      state := None;
      isReplayTest := false;
      lbsTx := [];
      mcsTx := [];
      log := EmptyLog;
      recvBuf := [];
    }

    /** `Reset`'s second half: the delay, the position, the message list and
        every player's key index and start index cleared. */
    method ClearIndices()
      requires |keyMsgIndex| == 4
      modifies this
      ensures Model() == old(Model()).(recvDelay := 0, me := 0, msgList := [],
                                       keyMsgIndex := [[], [], [], []], startIndex := [0, 0, 0, 0])
    {
      recvDelay := 0;
      me := 0;
      msgList := [];
      var cleared := ClearAll(keyMsgIndex);
      keyMsgIndex := cleared;
      assert keyMsgIndex == [[], [], [], []];
      startIndex := [0, 0, 0, 0];
    }

    /** Loads an already parsed battle log and arms the replay; the key
        indices are left alone, and the bridge keeps its invariant when they
        were cleared before. */
    method StartReplayTest(parsed: BattleLogFile)
      modifies this
      ensures Model() == ReplayStarted(old(Model()), codec, parsed)
      ensures Cleared(old(keyMsgIndex)) ==> Valid()
    {
      var users := ReplayUsers(codec.mcs.parse, parsed);
      var msgs := ReadMessageList(codec.mcs, parsed.battleData);
      Arm(parsed.(users := users), msgs);
      if Cleared(keyMsgIndex) {
        ClearedWellFormed(Model());
      }
    }

    /** The end of `StartReplayTest`: the log and its messages kept, every
        start index 0, state Start and a maximum lag of 1. */
    method Arm(replay: BattleLogFile, msgs: seq<McsMessage>)
      modifies this
      ensures Model() == old(Model()).(log := replay, msgList := msgs, startIndex := [0, 0, 0, 0],
                                       state := Start, maxlag := 1, isReplayTest := true)
    {
      log := replay;
      msgList := msgs;
      startIndex := [0, 0, 0, 0];
      state := Start;
      maxlag := 1;
      isReplayTest := true;
    }

    /** Undoes the patches and ends the replay. */
    method Close()
      modifies this, mem
      ensures mem.bytes == PatchRestored(old(mem.bytes), old(Model()))
      ensures Model() == old(Model()).(state := End)
    {
      RestorePatch();
      state := End;
    }

    /** Copies the four player work areas out of guest memory. */
    method SaveCurrentGameState(snapshot: array<u8>)
      requires snapshot.Length == SNAPSHOT_SIZE
      modifies snapshot
      ensures snapshot[..] == Snapshot(mem.bytes)
    {
      for p := 0 to 4
        invariant forall k :: 0 <= k < p * PLAYER_WORK_SIZE ==> snapshot[k] == Load8(mem.bytes, AddrAdd(PLAYER_WORKS, k))
      {
        for i := 0 to PLAYER_WORK_SIZE
          invariant forall k :: 0 <= k < p * PLAYER_WORK_SIZE + i ==> snapshot[k] == Load8(mem.bytes, AddrAdd(PLAYER_WORKS, k))
        {
          snapshot[p * PLAYER_WORK_SIZE + i] := mem.Read8(AddrAdd(PLAYER_WORKS, p * PLAYER_WORK_SIZE + i));
        }
      }
      assert snapshot[..] == Snapshot(mem.bytes);
    }

    /** Copies a snapshot back into the four player work areas. */
    method LoadGameState(snapshot: array<u8>)
      requires snapshot.Length == SNAPSHOT_SIZE
      modifies mem
      ensures mem.bytes == SnapshotLoaded(old(mem.bytes), snapshot[..])
    {
      for p := 0 to 4
        invariant mem.bytes == WrittenBlock(old(mem.bytes), PLAYER_WORKS, snapshot[..p * PLAYER_WORK_SIZE])
      {
        for i := 0 to PLAYER_WORK_SIZE
          invariant mem.bytes == WrittenBlock(old(mem.bytes), PLAYER_WORKS, snapshot[..p * PLAYER_WORK_SIZE + i])
        {
          var k := p * PLAYER_WORK_SIZE + i;
          mem.Write8(AddrAdd(PLAYER_WORKS, k), snapshot[k]);
          assert snapshot[..k + 1][..k] == snapshot[..k];
        }
      }
      assert snapshot[..4 * PLAYER_WORK_SIZE] == snapshot[..];
    }

    /** The socket-write request: `size` bytes at `addr` queued and processed,
        then the repeating patches re-applied; `syncOk` is whether the
        rollback session delivers inputs when a key message is answered live. */
    method OnSockWrite(addr: u32, size: u32, syncOk: bool) returns (r: u32, ok: bool)
      requires Valid() && |log.users| <= 4 && size <= INET_BUF_SIZE
      modifies this, mem
      ensures size == 0 ==> ok && r == 0 && Model() == old(Model()) && mem.bytes == old(mem.bytes)
      ensures size != 0 ==> ok == SockWritten(old(Model()), codec, Block(old(mem.bytes), addr, size), syncOk).ok
      ensures size != 0 && ok ==>
        && Model() == SockWritten(old(Model()), codec, Block(old(mem.bytes), addr, size), syncOk).after
        && mem.bytes == PatchApplied(old(mem.bytes), Model(), false)
        && r == size
        && Valid()
    {
      if size == 0 {
        return 0, true;
      }
      var buf := mem.ReadBlock(addr, size);
      assert buf == Block(mem.bytes, addr, size);
      if InLobby(state) {
        lbsTx := lbsTx + buf;
      } else {
        mcsTx := mcsTx + buf;
      }
      if InLobby(state) {
        ok := ProcessLbsMessage();
      } else {
        ok := ProcessMcsMessage(syncOk);
      }
      if !ok {
        return 0, false;
      }
      ApplyPatch(false);
      r := size;
    }

    /** The socket-read request: at most `size` buffered bytes handed to the
        guest at `addr`, oldest first. */
    method OnSockRead(addr: u32, size: u32) returns (r: u32, ok: bool)
      requires Valid()
      modifies this, mem
      ensures var res := SockRead(old(Model()), codec, size);
        && ok == res.ok
        && (ok ==> && Model() == res.after && r == res.response && Valid()
                   && mem.bytes == WrittenBlock(old(mem.bytes), addr, res.delivered))
    {
      if InLobby(state) {
        ok := ProcessLbsMessage();
        if !ok {
          return 0, false;
        }
      }
      ok := true;
      if recvBuf == [] {
        return 0, true;
      }
      var n := Min(|recvBuf|, ToInt32(size));
      recvBuf := PopInto(mem, addr, recvBuf, n);
      r := ToU32(n);
    }

    /** The socket-poll request: the number of bytes ready, or 0 while a
        reply is held back. */
    method OnSockPoll() returns (r: u32, ok: bool)
      requires Valid()
      modifies this
      ensures var res := SockPolled(old(Model()), codec);
        ok == res.ok && (ok ==> Model() == res.after && r == res.response && Valid())
    {
      if InLobby(state) {
        ok := ProcessLbsMessage();
        if !ok {
          return 0, false;
        }
      }
      ok := true;
      if 0 < recvDelay {
        recvDelay := recvDelay - 1;
        return 0, true;
      }
      r := ToU32(|recvBuf|);
    }

    /** Rebuilds each player's key-message index from its start index. */
    method PrepareKeyMsgIndex() returns (ok: bool)
      requires Valid() && |log.users| <= 4
      modifies this
      ensures ok == PreparedFrom(old(Model()), 0).ok
      ensures ok ==> Model() == PreparedFrom(old(Model()), 0).after && Valid()
    {
      PreparedWellFormed(Model(), 0);
      var index, start;
      index, start, ok := PrepareIndices(Model());
      if ok {
        keyMsgIndex := index;
        startIndex := start;
      }
    }

    /** Handles at most one pending lobby request. */
    method ProcessLbsMessage() returns (ok: bool)
      requires Valid()
      modifies this
      ensures var s := LbsProcessed(old(Model()), codec);
        ok == s.ok && (ok ==> Model() == s.after && Valid())
    {
      if state == Start {
        recvBuf := recvBuf + codec.serialize(ReadyBattleNotice);
        recvDelay := 1;
        state := LbsStartBattleFlow;
      }
      var (msg, rest) := ReadFrom(codec.parseLbs, lbsTx);
      if msg.None? {
        return true;
      }
      lbsTx := rest;
      recvDelay := 1;
      ok := AnswerLbs(msg.value);
    }

    /** The answer to one lobby request. */
    method AnswerLbs(m: LbsMessage) returns (ok: bool)
      modifies this
      ensures var s := LbsAnswered(old(Model()), codec, m);
        ok == s.ok && (ok ==> Model() == s.after)
      ensures msgList == old(msgList) && keyMsgIndex == old(keyMsgIndex) && startIndex == old(startIndex)
    {
      ok := true;
      match m.command {
        case LobbyMatchingEntry =>
          recvBuf := recvBuf + codec.serialize(Answer(m, []));
          recvBuf := recvBuf + codec.serialize(ReadyBattleNotice);
        case AskMatchingJoin =>
          recvBuf := recvBuf + codec.serialize(Answer(m, [W8(|log.users|)]));
        case AskPlayerSide =>
          me := 0;
          recvBuf := recvBuf + codec.serialize(Answer(m, [W8(me + 1)]));
        case AskPlayerInfo =>
          var pos := m.param8;
          if !(1 <= pos <= |log.users|) {
            return false;
          }
          recvBuf := recvBuf + codec.serialize(Answer(m, PlayerInfoFields(pos, log.users[pos - 1])));
        case AskRuleData =>
          recvBuf := recvBuf + codec.serialize(Answer(m, [WBytes(log.ruleBin)]));
        case AskBattleCode =>
          recvBuf := recvBuf + codec.serialize(Answer(m, [WBytes(log.battleCode)]));
        case AskMcsVersion =>
          recvBuf := recvBuf + codec.serialize(Answer(m, [W8(10)]));
        case AskMcsAddress =>
          recvBuf := recvBuf + codec.serialize(Answer(m, [W16(4), W8(127), W8(0), W8(0), W8(1), W16(2), W16(3333)]));
        case Logout =>
          state := McsWaitJoin;
        case OtherCommand(_) =>
      }
    }

    /** Appends the reply of every player but `me` to the receive buffer. */
    method AppendBroadcast(kind: MsgType, pingCount: int)
      modifies this
      ensures Model() == Received(old(Model()), Broadcast(codec, kind, pingCount, old(me), old(|log.users|)))
    {
      var replies: seq<u8> := [];
      for i := 0 to |log.users|
        invariant replies == Broadcast(codec, kind, pingCount, me, i)
      {
        if i != me {
          replies := replies + PlayerMessage(codec, kind, pingCount, me, i);
        }
      }
      recvBuf := recvBuf + replies;
    }

    /** Appends a freshly created KeyMsg1 for every player. */
    method AppendLiveKeys()
      modifies this
      ensures Model() == Received(old(Model()), LiveKeys(codec, old(|log.users|)))
    {
      var keys: seq<u8> := [];
      for i := 0 to |log.users|
        invariant keys == LiveKeys(codec, i)
      {
        keys := keys + codec.create(KeyMsg1, i);
      }
      recvBuf := recvBuf + keys;
    }

    /** Appends, for every player with one, the recorded key message at
        offset `s` of its index. */
    method AppendReplayedKeys(s: nat)
      requires Shaped(Model()) && |log.users| <= 4
      modifies this
      ensures Model() == Received(old(Model()), ReplayedKeys(old(Model()), s, old(|log.users|)))
    {
      var keys: seq<u8> := [];
      for i := 0 to |log.users|
        invariant keys == ReplayedKeys(Model(), s, i)
      {
        if s < |keyMsgIndex[i]| {
          keys := keys + msgList[keyMsgIndex[i][s]].body;
        }
      }
      recvBuf := recvBuf + keys;
    }

    /** Handles at most one pending battle-server message. */
    method ProcessMcsMessage(syncOk: bool) returns (ok: bool)
      requires Valid() && |log.users| <= 4
      modifies this
      ensures var s := McsProcessed(old(Model()), codec, syncOk);
        ok == s.ok && (ok ==> Model() == s.after && Valid())
    {
      McsProcessedKeeps(Model(), codec, syncOk);
      var (msg, rest) := ReadFrom(codec.mcs.parse, mcsTx);
      if msg.None? {
        return true;
      }
      SameIndicesWellFormed(Model(), Model().(mcsTx := rest));
      mcsTx := rest;
      ok := AnswerMcs(msg.value, syncOk);
    }

    /** The answer to one battle-server message. */
    method AnswerMcs(m: McsMessage, syncOk: bool) returns (ok: bool)
      requires Valid() && |log.users| <= 4
      modifies this
      ensures var s := McsAnswered(old(Model()), codec, m, syncOk);
        ok == s.ok && (ok ==> Model() == s.after)
    {
      ok := true;
      match m.kind {
        case ConnectionIdMsg =>
          state := McsInBattle;
        case IntroMsg =>
          AppendBroadcast(IntroMsg, 0);
        case IntroMsgReturn =>
          AppendBroadcast(IntroMsgReturn, 0);
        case PingMsg =>
          AppendBroadcast(PingMsg, m.pingCount);
        case PongMsg =>
        case StartMsg =>
          ghost var b0 := Model();
          AppendBroadcast(StartMsg, 0);
          inGameScene := 0;
          SameIndicesWellFormed(b0, Model());
          ok := PrepareKeyMsgIndex();
        case ForceMsg =>
        case KeyMsg1 =>
          if inGameScene != 0 {
            if syncOk {
              AppendLiveKeys();
            }
          } else {
            AppendReplayedKeys(m.firstSeq);
          }
        case KeyMsg2 =>
          ok := false;
        case LoadStartMsg =>
          AppendBroadcast(LoadStartMsg, 0);
        case LoadEndMsg =>
          AppendBroadcast(LoadEndMsg, 0);
        case OtherMsg =>
      }
    }

    /** Writes the disk-specific patch and the log's patches, unless the
        replay has not started or has ended. */
    method ApplyPatch(firstTime: bool)
      modifies mem
      ensures mem.bytes == PatchApplied(old(mem.bytes), Model(), firstTime)
    {
      if state == None || state == End {
        return;
      }
      if log.gameDisk == "dc2" {
        mem.Write16(DC2_KEY_PUSH, 9);
        mem.Write8(DC2_KEY_FLAG, 1);
      }
      if log.gameDisk == "ps2" {
        mem.Write32(PS2_KEY_PUSH, 0);
        mem.Write8(PS2_KEY_FLAG, 1);
      }
      ApplyPatches(mem, log.patches, firstTime);
    }

    /** Undoes the disk-specific patch and writes back every code's original value. */
    method RestorePatch()
      modifies mem
      ensures mem.bytes == PatchRestored(old(mem.bytes), Model())
    {
      if log.gameDisk == "dc2" {
        mem.Write16(DC2_KEY_PUSH, 0x410b);
        mem.Write8(DC2_KEY_FLAG, 2);
      }
      if log.gameDisk == "ps2" {
        mem.Write32(PS2_KEY_PUSH, 0x0c0e0be4);
        mem.Write8(PS2_KEY_FLAG, 2);
      }
      RestorePatches(mem, log.patches);
    }
  }
}
