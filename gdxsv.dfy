/**
  The gdxsv dispatcher on the emulator side (`Gdxsv` in gdxsv.cpp): it owns
  the network mode, answers the guest's socket RPCs through the shared
  mailbox, builds the login packet sent to the lobby server, and writes the
  disk-2 fixes and online patches into guest memory.

  The network backends are outside this model: whether a lobby or match
  connection succeeds, and what a backend answers to a read, write or poll,
  arrive as parameters of `HandleRPC`.
*/
module GdxsvDispatcher {
  import opened Wrappers
  import opened GuestMemory
  import opened OnlinePatch
  import opened GdxRpc

  datatype NetMode = Offline | Lbs | McsUdp | McsRollback | Replay

  /** `symbols[name]` of a `std::map`: a missing symbol reads as 0. */
  function Symbol(symbols: map<string, u32>, name: string): u32 {
    if name in symbols then symbols[name] else 0
  }

  // ---------------------------------------------------------------------
  // The login packet.

  const PACKET_HEADER: seq<u8> := [0x81, 0xff, 0x99, 0x50, 0x00, 0x00, 0x00, 0x00, 0x00, 0xff, 0xff, 0xff]
  const LOGIN_MAGIC: seq<bv8> := [0x46, 0xcf, 0x2d, 0x55]

  /** Characters of the login key as guest bytes. */
  function KeyBytes(key: seq<bv8>): (s: seq<u8>)
    ensures |s| == |key|
  {
    seq(|key|, i requires 0 <= i < |key| => key[i] as int)
  }

  /** Guest bytes as characters. */
  function ByteChars(s: seq<u8>): (key: seq<bv8>)
    ensures |key| == |s|
  {
    seq(|s|, i requires 0 <= i < |s| => s[i] as bv8)
  }

  /** The two bytes `(n >> 8) & 0xff`, `n & 0xff`. */
  function BigEndian16(n: nat): (s: seq<u8>)
    ensures |s| == 2
  {
    [(n / 0x100) % 0x100, n % 0x100]
  }

  /** The 16-bit number two big-endian bytes hold. */
  function FromBigEndian16(hi: u8, lo: u8): nat {
    hi * 0x100 + lo
  }

  /** Byte `i` of the login key masked with magic byte `i mod 4`. */
  function EncodedKey(key: seq<bv8>): (e: seq<bv8>)
    ensures |e| == |key|
  {
    seq(|key|, i requires 0 <= i < |key| => key[i] ^ LOGIN_MAGIC[i % 4])
  }

  /** The platform-info packet: the header, the length-prefixed info text
      and the length-prefixed masked login key, appended in that order; then
      bytes 4..5 are overwritten with the length after the header, truncated
      to 16 bits. */
  function PlatformInfoPacket(info: seq<u8>, key: seq<bv8>): seq<u8> {
    var unsized := PACKET_HEADER + BigEndian16(|info|) + info + BigEndian16(|key|) + KeyBytes(EncodedKey(key));
    var payloadSize := ToU16(|unsized| - 12);
    unsized[4 := payloadSize / 0x100][5 := payloadSize % 0x100]
  }

  /** How the lobby server reads the packet back: the header, a payload size
      that agrees with the length modulo 2^16, the info text and the login key. */
  function ParsePlatformInfoPacket(p: seq<u8>): Option<(seq<u8>, seq<bv8>)> {
    if |p| < 14 || p[..4] != PACKET_HEADER[..4] || p[6..12] != PACKET_HEADER[6..]
       || FromBigEndian16(p[4], p[5]) != (|p| - 12) % 0x1_0000 then None
    else
      var n := FromBigEndian16(p[12], p[13]);
      if |p| < 16 + n then None
      else
        var k := FromBigEndian16(p[14 + n], p[15 + n]);
        if |p| != 16 + n + k then None
        else Some((p[14..14 + n], EncodedKey(ByteChars(p[16 + n..]))))
  }

  /** Masking twice with the same magic gives the key back. */
  lemma EncodedKeyTwice(key: seq<bv8>)
    ensures EncodedKey(EncodedKey(key)) == key
  {
    forall i | 0 <= i < |key|
      ensures EncodedKey(EncodedKey(key))[i] == key[i]
    {
      var c := LOGIN_MAGIC[i % 4];
      assert (key[i] ^ c) ^ c == key[i];
    }
  }

  /** Key characters survive the trip through guest bytes. */
  lemma ByteCharsOfKeyBytes(key: seq<bv8>)
    ensures ByteChars(KeyBytes(key)) == key
  {
    forall i | 0 <= i < |key|
      ensures ByteChars(KeyBytes(key))[i] == key[i]
    {
      assert (key[i] as int) as bv8 == key[i];
    }
  }

  lemma BigEndian16Read(n: nat)
    requires n < 0x1_0000
    ensures FromBigEndian16(BigEndian16(n)[0], BigEndian16(n)[1]) == n
  {
  }

  /** The packet's layout: the header apart from bytes 4..5, which hold
      the packet length minus 12 modulo 2^16, then the length-prefixed info
      text and the length-prefixed masked key. */
  lemma PacketLayout(info: seq<u8>, key: seq<bv8>)
    ensures var p := PlatformInfoPacket(info, key);
            && |p| == 16 + |info| + |key|
            && p[..4] == PACKET_HEADER[..4] && p[6..12] == PACKET_HEADER[6..]
            && FromBigEndian16(p[4], p[5]) == (|p| - 12) % 0x1_0000
            && p[12..] == BigEndian16(|info|) + info + BigEndian16(|key|) + KeyBytes(EncodedKey(key))
  {
    var body := BigEndian16(|info|) + info + BigEndian16(|key|) + KeyBytes(EncodedKey(key));
    var unsized := PACKET_HEADER + BigEndian16(|info|) + info + BigEndian16(|key|) + KeyBytes(EncodedKey(key));
    assert unsized[12..] == body;
    var p := PlatformInfoPacket(info, key);
    assert p[12..] == unsized[12..];
    BigEndian16Read(ToU16(|p| - 12));
  }

  /** The lobby server recovers the info text and the login key from the
      packet whenever both fit a 16-bit length. */
  lemma PacketRoundTrip(info: seq<u8>, key: seq<bv8>)
    requires |info| < 0x1_0000 && |key| < 0x1_0000
    ensures ParsePlatformInfoPacket(PlatformInfoPacket(info, key)) == Some((info, key))
  {
    var p := PlatformInfoPacket(info, key);
    var n := |info|;
    PacketLayout(info, key);
    BigEndian16Read(n);
    BigEndian16Read(|key|);
    assert p[12..14] == BigEndian16(n);
    assert p[14..14 + n] == info;
    assert p[14 + n..16 + n] == BigEndian16(|key|);
    assert p[16 + n..] == KeyBytes(EncodedKey(key));
    ByteCharsOfKeyBytes(EncodedKey(key));
    EncodedKeyTwice(key);
  }

  /** `GeneratePlatformInfoPacket`: appends the header, the info text and the
      masked key, then patches the payload size into bytes 4..5. */
  method GeneratePlatformInfoPacket(info: seq<u8>, key: seq<bv8>) returns (packet: seq<u8>)
    ensures packet == PlatformInfoPacket(info, key)
  {
    packet := PACKET_HEADER;
    packet := packet + BigEndian16(|info|);
    packet := packet + info;
    var e := EncodeKey(key);
    packet := packet + BigEndian16(|e|);
    packet := packet + KeyBytes(e);
    var payloadSize := ToU16(|packet| - 12);
    packet := packet[4 := payloadSize / 0x100][5 := payloadSize % 0x100];
  }

  /** The masking loop over a zero-filled buffer. */
  method EncodeKey(key: seq<bv8>) returns (e: seq<bv8>)
    ensures e == EncodedKey(key)
  {
    e := seq(|key|, _ => 0);
    for i := 0 to |key|
      invariant |e| == |key|
      invariant forall j :: 0 <= j < i ==> e[j] == EncodedKey(key)[j]
      invariant forall j :: i <= j < |key| ==> e[j] == 0
    {
      e := e[i := e[i] ^ (key[i] ^ LOGIN_MAGIC[i % 4])];
    }
  }

  // ---------------------------------------------------------------------
  // The RPC dispatcher.

  /** The mode after an RPC: an open from the lobby side connects to the
      lobby server, any other open to a match server; a close drops to
      Offline; replay mode ignores both. `connected` is whether the backend's
      connect succeeded. */
  function NextMode(mode: NetMode, rpc: Rpc, connected: bool): (r: NetMode)
    ensures r == Replay <==> mode == Replay
    ensures r == McsRollback ==> mode == McsRollback
    ensures r != mode ==> rpc.request == SOCK_OPEN || rpc.request == SOCK_CLOSE
    ensures rpc.request == SOCK_CLOSE && mode != Replay ==> r == Offline
    ensures r == Lbs && mode != Lbs ==> rpc.request == SOCK_OPEN && rpc.param1 == 1 && connected
  {
    if rpc.request == SOCK_OPEN then
      if mode == Replay then mode
      else if rpc.param1 == 1 then (if connected then Lbs else Offline)
      else (if connected then McsUdp else Offline)
    else if rpc.request == SOCK_CLOSE then
      if mode == Replay then mode else Offline
    else mode
  }

  /** An open to the lobby that connected: the login packet goes out. */
  predicate LobbyOpened(mode: NetMode, rpc: Rpc, connected: bool) {
    rpc.request == SOCK_OPEN && mode != Replay && rpc.param1 == 1 && connected
  }

  /** The response word: the active backend's answer for a read, write or
      poll in Lbs, McsUdp or Replay mode, and 0 otherwise. */
  function Response(mode: NetMode, rpc: Rpc, answer: u32): (r: u32)
    ensures r != 0 ==> mode == Lbs || mode == McsUdp || mode == Replay
    ensures r != 0 ==> rpc.request == SOCK_READ || rpc.request == SOCK_WRITE || rpc.request == SOCK_POLL
  {
    if (rpc.request == SOCK_READ || rpc.request == SOCK_WRITE || rpc.request == SOCK_POLL)
       && (mode == Lbs || mode == McsUdp || mode == Replay) then answer
    else 0
  }

  /** What one `HandleRPC` call leaves behind. */
  datatype Handled = Handled(mode: NetMode, bytes: Bytes, sent: Option<seq<u8>>)

  /** One RPC, with the mailbox at `a` and the `is_online` word at `online`
      (0 when the symbol is missing): nothing at all happens when there is no
      mailbox; otherwise the mode moves on, the mailbox is overwritten with
      the response and zeros, and `is_online` is set to whether the new mode
      is other than Offline. */
  function Handle(mode: NetMode, m: Bytes, a: u32, online: u32, key: seq<bv8>, info: seq<u8>,
                  connected: bool, answer: u32): Handled
  {
    if a == 0 then Handled(mode, m, None)
    else
      var rpc := Mailbox(m, a);
      var next := NextMode(mode, rpc, connected);
      var replied := StoredWords(m, a, Words(Rpc(0, Response(mode, rpc, answer), 0, 0, 0, 0)));
      Handled(next, Store32(replied, online, if next != Offline then 1 else 0),
              if LobbyOpened(mode, rpc, connected) then Some(PlatformInfoPacket(info, key)) else None)
  }

  /** After an RPC the guest finds its request and parameters cleared, the
      response in the second word, and `is_online` telling whether the new
      mode is other than Offline, provided the `is_online` word lies outside
      the mailbox. */
  lemma HandledMailbox(mode: NetMode, m: Bytes, a: u32, online: u32, key: seq<bv8>, info: seq<u8>,
                       connected: bool, answer: u32)
    requires a != 0
    requires forall k :: 0 <= k < 6 ==> Disjoint(online, 4, WordAddr(a, k), 4)
    ensures var h := Handle(mode, m, a, online, key, info, connected, answer);
            && Mailbox(h.bytes, a) == Rpc(0, Response(mode, Mailbox(m, a), answer), 0, 0, 0, 0)
            && Load32(h.bytes, online) == (if h.mode != Offline then 1 else 0)
  {
    var rpc := Mailbox(m, a);
    var next := NextMode(mode, rpc, connected);
    var reply := Rpc(0, Response(mode, rpc, answer), 0, 0, 0, 0);
    var replied := StoredWords(m, a, Words(reply));
    var v: u32 := if next != Offline then 1 else 0;
    MailboxStored(m, a, reply);
    Load32Store32(replied, online, v);
    forall k | 0 <= k < 6
      ensures Load32(Store32(replied, online, v), WordAddr(a, k)) == Load32(replied, WordAddr(a, k))
    {
      Load32StoreDisjoint(replied, online, v, WordAddr(a, k));
    }
  }

  /** The game counts as in a match exactly when gdxsv is enabled and the
      mode is McsUdp; after an RPC that is so exactly when the mode already
      was McsUdp and the RPC neither opened nor closed a socket, or the RPC
      opened a match-server connection that succeeded outside replay. */
  lemma InGameAfterRpc(enabled: bool, mode: NetMode, rpc: Rpc, connected: bool)
    ensures (enabled && NextMode(mode, rpc, connected) == McsUdp)
        <==> enabled && ((mode == McsUdp && rpc.request != SOCK_OPEN && rpc.request != SOCK_CLOSE)
                         || (rpc.request == SOCK_OPEN && mode != Replay && rpc.param1 != 1 && connected))
  {
  }

  // ---------------------------------------------------------------------
  // Disk-2 fixes.

  /** InetClntParam's maximum lag byte. */
  const MAXLAG_ADDR: u32 := 0x0058_0341
  /** The modem-recognition call, replaced by the network-battle entry. */
  const MODEM_CHECK_ADDR: u32 := 0x003c_4f58
  const NETWORK_BATTLE: u32 := 0x0015_f110
  /** The login form validation, skipped. */
  const FORM_CHECK_ADDR: u32 := 0x0035_51c0
  /** Where the game keeps its login key. */
  const LOGIN_KEY_ADDR: u32 := 0x00a8_8370

  /** The three fixed writes. */
  function Disk2Fixed(m: Bytes, maxlag: int): Bytes {
    Store32(Store32(Store8(m, MAXLAG_ADDR, ToU8(maxlag)), MODEM_CHECK_ADDR, NETWORK_BATTLE), FORM_CHECK_ADDR, 0)
  }

  /** The login key is copied in only when the game's key area is blank. */
  function KeyStored(m: Bytes, key: seq<bv8>): Bytes {
    if Load8(m, LOGIN_KEY_ADDR) == 0 then WrittenBlock(m, LOGIN_KEY_ADDR, KeyBytes(key)) else m
  }

  /** `WritePatchDisk2`: the fixed writes, the login key, then the online
      patches as a repeated application. */
  function Disk2Patched(m: Bytes, maxlag: int, key: seq<bv8>, ps: seq<Patch>): Bytes {
    Applied(KeyStored(Disk2Fixed(m, maxlag), key), ps, false)
  }

  /** The fixed writes do not touch the key area's first byte. */
  lemma Disk2FixedKeepsKeyByte(m: Bytes, maxlag: int)
    ensures Load8(Disk2Fixed(m, maxlag), LOGIN_KEY_ADDR) == Load8(m, LOGIN_KEY_ADDR)
  {
    var m1 := Store8(m, MAXLAG_ADDR, ToU8(maxlag));
    var m2 := Store32(m1, MODEM_CHECK_ADDR, NETWORK_BATTLE);
    WrittenBlockLoad(m1, MODEM_CHECK_ADDR, LittleEndian32(NETWORK_BATTLE), LOGIN_KEY_ADDR);
    WrittenBlockLoad(m2, FORM_CHECK_ADDR, LittleEndian32(0), LOGIN_KEY_ADDR);
  }

  /** A login key already present in guest memory is never overwritten:
      the result is the same as with an empty key. */
  lemma Disk2KeepsPresentKey(m: Bytes, maxlag: int, key: seq<bv8>, ps: seq<Patch>)
    requires Load8(m, LOGIN_KEY_ADDR) != 0
    ensures Disk2Patched(m, maxlag, key, ps) == Disk2Patched(m, maxlag, [], ps)
  {
    Disk2FixedKeepsKeyByte(m, maxlag);
  }

  /** When the key area is blank, the login key can be read back from it
      afterwards, as long as no online patch covers it. */
  lemma Disk2WritesBlankKey(m: Bytes, maxlag: int, key: seq<bv8>, ps: seq<Patch>)
    requires Load8(m, LOGIN_KEY_ADDR) == 0 && |key| <= ADDR_SPACE
    requires forall i :: 0 <= i < |key| ==> PatchesAvoid(ps, AddrAdd(LOGIN_KEY_ADDR, i))
    ensures Block(Disk2Patched(m, maxlag, key, ps), LOGIN_KEY_ADDR, |key|) == KeyBytes(key)
  {
    var fixed := Disk2Fixed(m, maxlag);
    Disk2FixedKeepsKeyByte(m, maxlag);
    var bytes := KeyBytes(key);
    var written := WrittenBlock(fixed, LOGIN_KEY_ADDR, bytes);
    ReadAfterWrite(fixed, LOGIN_KEY_ADDR, bytes);
    forall i | 0 <= i < |key|
      ensures Load8(Applied(written, ps, false), AddrAdd(LOGIN_KEY_ADDR, i)) == bytes[i]
    {
      AppliedOutside(written, ps, false, AddrAdd(LOGIN_KEY_ADDR, i));
      assert Block(written, LOGIN_KEY_ADDR, |key|)[i] == bytes[i];
    }
  }

  /** The six reads at the start of `HandleRPC`. */
  method ReadMailbox(mem: Memory, a: u32) returns (rpc: Rpc)
    ensures rpc == Mailbox(mem.bytes, a)
  {
    rpc := Rpc(mem.Read32(a), mem.Read32(AddrAdd(a, 4)), mem.Read32(AddrAdd(a, 8)),
               mem.Read32(AddrAdd(a, 12)), mem.Read32(AddrAdd(a, 16)), mem.Read32(AddrAdd(a, 20)));
  }

  // ---------------------------------------------------------------------
  // The dispatcher object.

  class Gdxsv {
    const mem: Memory
    var netmode: NetMode
    var enabled: bool
    var maxlag: int
    var loginkey: seq<bv8>
    var symbols: map<string, u32>
    var patchList: seq<Patch>

    /** A dispatcher as `Reset` configures it, starting Offline. */
    constructor (mem: Memory, enabled: bool, maxlag: int, loginkey: seq<bv8>,
                 symbols: map<string, u32>, patchList: seq<Patch>)
      ensures this.mem == mem && netmode == Offline && this.enabled == enabled
      ensures this.maxlag == maxlag && this.loginkey == loginkey
      ensures this.symbols == symbols && this.patchList == patchList
    {
      this.mem := mem;
      netmode := Offline;
      this.enabled := enabled;
      this.maxlag := maxlag;
      this.loginkey := loginkey;
      this.symbols := symbols;
      this.patchList := patchList;
    }

    /** `InGame`: the game is in a match exactly when gdxsv is enabled and
        talks to a match server over UDP. */
    predicate InGame()
      reads this
      ensures InGame() <==> enabled && netmode == McsUdp
    {
      enabled && netmode == McsUdp
    }

    /** Answers the RPC the guest left in the mailbox. `connected` is the
        outcome of the backend's connect for an open, `answer` the active
        backend's reply to a read, write or poll, `info` the platform text;
        `sent` is the login packet handed to the lobby connection. */
    method HandleRPC(connected: bool, answer: u32, info: seq<u8>) returns (sent: Option<seq<u8>>)
      modifies this`netmode, mem
      ensures var h := Handle(old(netmode), old(mem.bytes), Symbol(symbols, "gdx_rpc"), Symbol(symbols, "is_online"),
                              loginkey, info, connected, answer);
              netmode == h.mode && mem.bytes == h.bytes && sent == h.sent
    {
      var a := Symbol(symbols, "gdx_rpc");
      if a == 0 {
        return None;
      }
      ghost var mode0 := netmode;
      var rpc := ReadMailbox(mem, a);
      sent := SwitchMode(rpc, connected, info);
      var response: u32 := 0;
      if (rpc.request == SOCK_READ || rpc.request == SOCK_WRITE || rpc.request == SOCK_POLL)
         && (netmode == Lbs || netmode == McsUdp || netmode == Replay) {
        response := answer;
      }
      assert response == Response(mode0, rpc, answer);
      WriteMailbox(mem, a, Rpc(0, response, 0, 0, 0, 0));
      mem.Write32(Symbol(symbols, "is_online"), if netmode != Offline then 1 else 0);
    }

    /** The open and close branches of `HandleRPC`. */
    method SwitchMode(rpc: Rpc, connected: bool, info: seq<u8>) returns (sent: Option<seq<u8>>)
      modifies this`netmode
      ensures netmode == NextMode(old(netmode), rpc, connected)
      ensures sent == if LobbyOpened(old(netmode), rpc, connected) then Some(PlatformInfoPacket(info, loginkey)) else None
    {
      sent := None;
      if rpc.request == SOCK_OPEN {
        if netmode == Replay {
        } else if rpc.param1 == 1 {
          if connected {
            netmode := Lbs;
            var packet := GeneratePlatformInfoPacket(info, loginkey);
            sent := Some(packet);
          } else {
            netmode := Offline;
          }
        } else {
          netmode := if connected then McsUdp else Offline;
        }
      }
      if rpc.request == SOCK_CLOSE {
        if netmode != Replay {
          netmode := Offline;
        }
      }
    }

    /** `ApplyOnlinePatch`: the patch list's changed values; write-once
        patches only on the first application. */
    method ApplyOnlinePatch(firstTime: bool)
      modifies mem
      ensures mem.bytes == Applied(old(mem.bytes), patchList, firstTime)
    {
      ApplyPatches(mem, patchList, firstTime);
    }

    /** `RestoreOnlinePatch`: every code's original value, then the list is
        emptied, so a second restore writes nothing. */
    method RestoreOnlinePatch()
      modifies mem, this`patchList
      ensures mem.bytes == Restored(old(mem.bytes), old(patchList))
      ensures patchList == []
    {
      RestorePatches(mem, patchList);
      patchList := [];
    }

    /** `WritePatchDisk2`. */
    method WritePatchDisk2()
      modifies mem
      ensures mem.bytes == Disk2Patched(old(mem.bytes), maxlag, loginkey, patchList)
    {
      mem.Write8(MAXLAG_ADDR, ToU8(maxlag));
      mem.Write32(MODEM_CHECK_ADDR, NETWORK_BATTLE);
      mem.Write32(FORM_CHECK_ADDR, 0);
      if mem.Read8(LOGIN_KEY_ADDR) == 0 {
        ghost var m1 := mem.bytes;
        ghost var bytes := KeyBytes(loginkey);
        var n := |loginkey|;
        for i := 0 to n
          invariant mem.bytes == WrittenBlock(m1, LOGIN_KEY_ADDR, bytes[..i])
        {
          mem.Write8(AddrAdd(LOGIN_KEY_ADDR, i), loginkey[i] as int);
          assert bytes[..i + 1][..i] == bytes[..i];
        }
        assert bytes[..n] == bytes;
      }
      ApplyOnlinePatch(false);
    }
  }
}
