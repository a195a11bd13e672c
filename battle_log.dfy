/**
  The recorded battle log the replay bridge plays back, the MCS messages it is
  made of, and the pure parts of `GdxsvBackendRollback::StartReplayTest`: the
  roster fix-up for logs recorded before version 20210802 and the flattening
  of the recorded traffic into one message list.

  The byte-level MCS format and its reader are not part of this model: a
  message is an abstract value (type, sender, first key sequence number,
  ping count, body bytes) and the reader is an abstract parser that is
  handed the pending bytes and reports a message and how many bytes it used.
*/
module BattleLog {
  import opened GuestMemory
  import opened OnlinePatch
  import W = Wrappers

  datatype MsgType =
    | ConnectionIdMsg | IntroMsg | IntroMsgReturn | PingMsg | PongMsg | StartMsg
    | ForceMsg | KeyMsg1 | KeyMsg2 | LoadStartMsg | LoadEndMsg | OtherMsg

  datatype McsMessage = McsMessage(kind: MsgType, sender: int, firstSeq: nat, pingCount: int, body: seq<u8>)

  /** What a parser makes of the bytes at the head of a stream. */
  datatype ReadResult<T> = NoMessage | Message(msg: T, used: int)

  /** One `Read` of a stream reader holding `pending`: a message is taken
      only when the parser uses at least one and at most all pending bytes,
      and the bytes it used are dropped from the head of the stream. */
  function ReadFrom<T>(parse: seq<u8> -> ReadResult<T>, pending: seq<u8>): (r: (W.Option<T>, seq<u8>))
    ensures r.0.None? ==> r.1 == pending
    ensures r.0.Some? ==> |r.1| < |pending| && r.1 == pending[|pending| - |r.1|..]
  {
    match parse(pending)
    case Message(m, k) =>
      if 0 < k <= |pending| then (W.Some(m), pending[k..]) else (W.None, pending)
    case NoMessage => (W.None, pending)
  }

  /** The MCS side of the message codec: the parser, and the two KeyMsg1
      halves a KeyMsg2 carries. */
  datatype McsCodec = McsCodec(
    parse: seq<u8> -> ReadResult<McsMessage>,
    firstKey: McsMessage -> McsMessage,
    secondKey: McsMessage -> McsMessage)

  // ---------------------------------------------------------------------
  // The log file, as parsed.

  datatype BattleLogUser = BattleLogUser(
    userId: string, userNameSjis: string, gameParam: string,
    pos: int, team: int, grade: int, winCount: int, loseCount: int, battleCount: int)

  datatype BattleLogMessage = BattleLogMessage(userId: string, body: seq<u8>)

  datatype BattleLogFile = BattleLogFile(
    version: int, gameDisk: string, users: seq<BattleLogUser>,
    battleData: seq<BattleLogMessage>, patches: seq<Patch>,
    ruleBin: string, battleCode: string)

  /** A cleared log file. */
  const EmptyLog := BattleLogFile(0, "", [], [], [], "", "")

  /** Logs older than this lack positions, teams and grades for their users. */
  const LEGACY_VERSION := 20210802

  // ---------------------------------------------------------------------
  // Roster fix-up for legacy logs.

  /** Reads messages until the first PingMsg and reports its sender; the
      bytes after it stay in the reader. */
  function PingSearch(parse: seq<u8> -> ReadResult<McsMessage>, pending: seq<u8>): (r: (W.Option<int>, seq<u8>))
    ensures |r.1| <= |pending|
    decreases |pending|
  {
    var (m, rest) := ReadFrom(parse, pending);
    if m.None? then (W.None, rest)
    else if m.value.kind == PingMsg then (W.Some(m.value.sender), rest)
    else PingSearch(parse, rest)
  }

  /** The sender of the first PingMsg in `ms`, if there is one. */
  function FirstPingSender(ms: seq<McsMessage>): W.Option<int>
    decreases |ms|
  {
    if ms == [] then W.None
    else if ms[0].kind == PingMsg then W.Some(ms[0].sender)
    else FirstPingSender(ms[1..])
  }

  /** The search reports the sender of the first PingMsg among the messages
      the reader yields, and nothing when there is none; in that case the
      reader is left as a full drain leaves it. */
  lemma {:induction false} PingSearchFirstPing(parse: seq<u8> -> ReadResult<McsMessage>, pending: seq<u8>)
    ensures PingSearch(parse, pending).0 == FirstPingSender(Decoded(parse, pending).0)
    ensures PingSearch(parse, pending).0.None? ==> PingSearch(parse, pending).1 == Decoded(parse, pending).1
    decreases |pending|
  {
    var (m, rest) := ReadFrom(parse, pending);
    if m.Some? && m.value.kind != PingMsg {
      PingSearchFirstPing(parse, rest);
      var ms := Decoded(parse, rest).0;
      assert ([m.value] + ms)[1..] == ms;
    }
  }

  /** The position scan: walking the recorded traffic with one reader that
      is never cleared, each user not yet placed gets the sender of the
      first PingMsg read after that user's record is fed in; the walk stops
      once every user of the roster is placed. */
  function PositionScan(parse: seq<u8> -> ReadResult<McsMessage>, data: seq<BattleLogMessage>, nUsers: int,
                        i: nat, pending: seq<u8>, positions: map<string, int>): map<string, int>
    requires i <= |data|
    decreases |data| - i
  {
    if i == |data| then positions
    else
      var d := data[i];
      var found := if d.userId in positions then (W.None, pending) else PingSearch(parse, pending + d.body);
      var positions' := if found.0.Some? then positions[d.userId := found.0.value] else positions;
      if nUsers == |positions'| then positions'
      else PositionScan(parse, data, nUsers, i + 1, found.1, positions')
  }

  /** C integer division, which truncates toward zero. */
  function CDiv(a: int, b: int): int
    requires b > 0
  {
    if a >= 0 then a / b else -((-a) / b)
  }

  function Min(a: int, b: int): int {
    if a <= b then a else b
  }

  /** A user not placed by the scan is looked up as position 0. */
  function PositionOf(positions: map<string, int>, id: string): int {
    if id in positions then positions[id] else 0
  }

  /** A legacy user record after the fix-up, given its scanned position. */
  function FixedUser(u: BattleLogUser, position: int): BattleLogUser {
    u.(pos := position + 1,
       team := 1 + CDiv(position, 2),
       grade := Min(14, CDiv(u.winCount, 100)),
       userNameSjis := u.userId)
  }

  function FixedUsers(users: seq<BattleLogUser>, positions: map<string, int>): (r: seq<BattleLogUser>)
    ensures |r| == |users|
    ensures forall i :: 0 <= i < |r| ==> r[i] == FixedUser(users[i], PositionOf(positions, users[i].userId))
  {
    seq(|users|, i requires 0 <= i < |users| => FixedUser(users[i], PositionOf(positions, users[i].userId)))
  }

  predicate SortedByPos(us: seq<BattleLogUser>) {
    forall i, j :: 0 <= i < j < |us| ==> us[i].pos <= us[j].pos
  }

  /** Inserts `u` after every user whose position is not greater. */
  function InsertByPos(u: BattleLogUser, s: seq<BattleLogUser>): (r: seq<BattleLogUser>)
    requires SortedByPos(s)
    ensures SortedByPos(r)
    ensures multiset(r) == multiset(s) + multiset{u}
    ensures |r| == |s| + 1 && (r[0] == u || (s != [] && r[0] == s[0]))
    decreases |s|
  {
    if s == [] then [u]
    else if u.pos < s[0].pos then
      SortedCons(u, s);
      [u] + s
    else
      assert s == [s[0]] + s[1..];
      var tail := InsertByPos(u, s[1..]);
      SortedCons(s[0], tail);
      [s[0]] + tail
  }

  /** A user placed before a sorted list whose head is not lower keeps it sorted. */
  lemma SortedCons(x: BattleLogUser, t: seq<BattleLogUser>)
    requires SortedByPos(t) && (t != [] ==> x.pos <= t[0].pos)
    ensures SortedByPos([x] + t)
  {
    var r := [x] + t;
    forall i, j | 0 <= i < j < |r|
      ensures r[i].pos <= r[j].pos
    {
      if i == 0 && j > 1 {
        assert r[1] == t[0] && r[j] == t[j - 1];
      }
    }
  }

  /** The order `std::sort` by `pos` produces; users with equal positions
      keep their recorded order here, one of the orders the unstable
      library sort may produce. */
  function SortByPos(us: seq<BattleLogUser>): (r: seq<BattleLogUser>)
    ensures SortedByPos(r)
    ensures multiset(r) == multiset(us)
    decreases |us|
  {
    if us == [] then []
    else
      assert us == us[..|us| - 1] + [us[|us| - 1]];
      InsertByPos(us[|us| - 1], SortByPos(us[..|us| - 1]))
  }

  /** The users of a legacy log after the fix-up and the sort. */
  function LegacyUsers(parse: seq<u8> -> ReadResult<McsMessage>, log: BattleLogFile): seq<BattleLogUser> {
    var positions := PositionScan(parse, log.battleData, |log.users|, 0, [], map[]);
    SortByPos(FixedUsers(log.users, positions))
  }

  /** After the fix-up the roster is ordered by position and holds exactly
      the recorded users, each with its position plus one as `pos`, team
      one plus half its position and grade its wins over 100 capped at 14,
      and its user id as its name. */
  lemma LegacyUsersFixed(parse: seq<u8> -> ReadResult<McsMessage>, log: BattleLogFile)
    ensures SortedByPos(LegacyUsers(parse, log))
    ensures |LegacyUsers(parse, log)| == |log.users|
    ensures var positions := PositionScan(parse, log.battleData, |log.users|, 0, [], map[]);
            forall u :: u in LegacyUsers(parse, log) <==>
              exists i :: 0 <= i < |log.users| && u == FixedUser(log.users[i], PositionOf(positions, log.users[i].userId))
  {
    var positions := PositionScan(parse, log.battleData, |log.users|, 0, [], map[]);
    var fixed := FixedUsers(log.users, positions);
    var r := LegacyUsers(parse, log);
    assert |r| == |multiset(r)| == |multiset(fixed)| == |fixed|;
    forall u
      ensures u in r <==> exists i :: 0 <= i < |log.users| && u == FixedUser(log.users[i], PositionOf(positions, log.users[i].userId))
    {
      assert u in r <==> u in multiset(fixed);
      if u in fixed {
        var i :| 0 <= i < |fixed| && fixed[i] == u;
      }
    }
  }

  /** A fixed-up user's team is one for positions 0 and 1, two for 2 and 3;
      its grade never exceeds 14 and is negative only for a negative win count. */
  lemma FixedUserBounds(u: BattleLogUser, position: int)
    requires 0 <= position < 4
    ensures FixedUser(u, position).team == if position < 2 then 1 else 2
    ensures FixedUser(u, position).pos == position + 1
    ensures FixedUser(u, position).grade <= 14
    ensures 0 <= u.winCount ==> 0 <= FixedUser(u, position).grade
  {
  }

  // ---------------------------------------------------------------------
  // The message list.

  /** A KeyMsg2 stands for its two KeyMsg1 halves; any other message for itself. */
  function Expanded(c: McsCodec, m: McsMessage): seq<McsMessage> {
    if m.kind == KeyMsg2 then [c.firstKey(m), c.secondKey(m)] else [m]
  }

  function ExpandedAll(c: McsCodec, ms: seq<McsMessage>): seq<McsMessage>
    decreases |ms|
  {
    if ms == [] then [] else Expanded(c, ms[0]) + ExpandedAll(c, ms[1..])
  }

  /** Every message the reader yields from `pending`, and what is left. */
  function Decoded(parse: seq<u8> -> ReadResult<McsMessage>, pending: seq<u8>): (seq<McsMessage>, seq<u8>)
    decreases |pending|
  {
    var (m, rest) := ReadFrom(parse, pending);
    if m.None? then ([], rest)
    else
      var (ms, left) := Decoded(parse, rest);
      ([m.value] + ms, left)
  }

  /** The messages of the recorded traffic, in order, read with one reader
      that carries unparsed bytes over from one record to the next. */
  function LogMessages(parse: seq<u8> -> ReadResult<McsMessage>, data: seq<BattleLogMessage>, pending: seq<u8>): seq<McsMessage>
    decreases |data|
  {
    if data == [] then []
    else
      var (ms, left) := Decoded(parse, pending + data[0].body);
      ms + LogMessages(parse, data[1..], left)
  }

  /** One drain of the reader as `StartReplayTest` performs it, splitting
      each KeyMsg2 while it reads. */
  function Drained(c: McsCodec, pending: seq<u8>): (seq<McsMessage>, seq<u8>)
    decreases |pending|
  {
    var (m, rest) := ReadFrom(c.parse, pending);
    if m.None? then ([], rest)
    else
      var (ms, left) := Drained(c, rest);
      (Expanded(c, m.value) + ms, left)
  }

  /** The message list `StartReplayTest` builds from the records `data`,
      with `pending` bytes already in the reader. */
  function MessageList(c: McsCodec, data: seq<BattleLogMessage>, pending: seq<u8>): seq<McsMessage>
    decreases |data|
  {
    if data == [] then []
    else
      var (ms, left) := Drained(c, pending + data[0].body);
      ms + MessageList(c, data[1..], left)
  }

  lemma ExpandedAllAppend(c: McsCodec, a: seq<McsMessage>, b: seq<McsMessage>)
    ensures ExpandedAll(c, a + b) == ExpandedAll(c, a) + ExpandedAll(c, b)
    decreases |a|
  {
    if a == [] {
      assert a + b == b;
    } else {
      assert (a + b)[0] == a[0] && (a + b)[1..] == a[1..] + b;
      ExpandedAllAppend(c, a[1..], b);
      var e := Expanded(c, a[0]);
      assert e + (ExpandedAll(c, a[1..]) + ExpandedAll(c, b)) == (e + ExpandedAll(c, a[1..])) + ExpandedAll(c, b);
    }
  }

  lemma {:induction false} DrainedExpands(c: McsCodec, pending: seq<u8>)
    ensures Drained(c, pending).0 == ExpandedAll(c, Decoded(c.parse, pending).0)
    ensures Drained(c, pending).1 == Decoded(c.parse, pending).1
    decreases |pending|
  {
    var (m, rest) := ReadFrom(c.parse, pending);
    if m.Some? {
      DrainedExpands(c, rest);
      var ms := Decoded(c.parse, rest).0;
      assert ([m.value] + ms)[1..] == ms;
    }
  }

  /** The message list is the recorded messages in order, each KeyMsg2
      replaced by its first and then its second KeyMsg1. */
  lemma {:induction false} MessageListExpandsLog(c: McsCodec, data: seq<BattleLogMessage>, pending: seq<u8>)
    ensures MessageList(c, data, pending) == ExpandedAll(c, LogMessages(c.parse, data, pending))
    decreases |data|
  {
    if data != [] {
      var p := pending + data[0].body;
      DrainedExpands(c, p);
      MessageListExpandsLog(c, data[1..], Decoded(c.parse, p).1);
      ExpandedAllAppend(c, Decoded(c.parse, p).0, LogMessages(c.parse, data[1..], Decoded(c.parse, p).1));
    }
  }

  /** The codec splits a KeyMsg2 into two messages neither of which is a KeyMsg2. */
  ghost predicate SplitsKeys(c: McsCodec) {
    forall m :: c.firstKey(m).kind != KeyMsg2 && c.secondKey(m).kind != KeyMsg2
  }

  /** With such a codec the message list holds no KeyMsg2. */
  lemma {:induction false} ExpandedAllHasNoKeyMsg2(c: McsCodec, ms: seq<McsMessage>)
    requires SplitsKeys(c)
    ensures forall k :: 0 <= k < |ExpandedAll(c, ms)| ==> ExpandedAll(c, ms)[k].kind != KeyMsg2
    decreases |ms|
  {
    if ms != [] {
      ExpandedAllHasNoKeyMsg2(c, ms[1..]);
      var e: seq<McsMessage> := Expanded(c, ms[0]);
      var rest: seq<McsMessage> := ExpandedAll(c, ms[1..]);
      forall k: int | 0 <= k < |e + rest|
        ensures (e + rest)[k].kind != KeyMsg2
      {
        if k >= |e| {
          assert (e + rest)[k] == rest[k - |e|];
        }
      }
    }
  }
}
