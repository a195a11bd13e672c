/**
  The guest-side patch (gdxsv_patch/src/main.c): small functions linked into
  the game that replace its modem and socket calls. Each stub forwards to the
  emulator through the RPC mailbox (`gdx_rpc_call`); `gdx_dial_start`
  installs `jal` hooks to the stubs at the game's call sites once.

  The trap into the emulator (a call through a fixed code address) is a
  parameter `host`: what the emulator does to guest memory while the guest
  waits. `HostRpc` connects it with the dispatcher's `HandleRPC`.
*/
module GuestStubs {
  import opened GuestMemory
  import opened GdxRpc
  import D = GdxsvDispatcher

  // ---------------------------------------------------------------------
  // Instruction encoding.

  /** `OP_JAL`: the word of a MIPS `jal` to `addr`. */
  function OpJal(addr: u32): u32 {
    0x0c00_0000 + addr / 4
  }

  /** Where a `jal` word at `pc` jumps: the top four bits of the delay
      slot's address followed by the 26-bit target field times four. */
  function JalTarget(instr: u32, pc: u32): int {
    (AddrAdd(pc, 4) / 0x1000_0000) * 0x1000_0000 + (instr % 0x400_0000) * 4
  }

  /** Within the first 256 MiB, where the game and the patch live, the word
      is a `jal` (opcode 3) that jumps to `addr` rounded down to a word. */
  lemma OpJalJumps(addr: u32, pc: u32)
    requires addr < 0x1000_0000 && AddrAdd(pc, 4) < 0x1000_0000
    ensures OpJal(addr) / 0x400_0000 == 3
    ensures JalTarget(OpJal(addr), pc) == addr - addr % 4
  {
    assert OpJal(addr) == 3 * 0x400_0000 + addr / 4;
  }

  // ---------------------------------------------------------------------
  // The RPC call.

  /** What the guest reads back after the trap: memory as the host left it,
      and the mailbox's response word. */
  datatype Called = Called(bytes: Bytes, response: u32)

  /** `gdx_rpc_call`: request, a zero response and the four parameters are
      stored in the mailbox at `a`, the host runs, and the response word is
      read back. */
  function RpcResult(m: Bytes, a: u32, rpc: Rpc, host: Bytes -> Bytes): Called {
    var after := host(StoredWords(m, a, Words(rpc)));
    Called(after, Load32(after, WordAddr(a, 1)))
  }

  method RpcCall(mem: Memory, a: u32, request: u32, param1: u32, param2: u32, param3: u32, param4: u32,
                 host: Bytes -> Bytes)
      returns (response: u32)
    modifies mem
    ensures var c := RpcResult(old(mem.bytes), a, Rpc(request, 0, param1, param2, param3, param4), host);
            mem.bytes == c.bytes && response == c.response
  {
    WriteMailbox(mem, a, Rpc(request, 0, param1, param2, param3, param4));
    mem.bytes := host(mem.bytes);
    response := mem.Read32(AddrAdd(a, 4));
  }

  /** The emulator's side of the trap: `HandleRPC` with the mailbox at `a`
      and the `is_online` word at `online`. */
  function HostRpc(mode: D.NetMode, a: u32, online: u32, key: seq<bv8>, info: seq<u8>,
                   connected: bool, answer: u32): Bytes -> Bytes
  {
    m => D.Handle(mode, m, a, online, key, info, connected, answer).bytes
  }

  /** End to end: the dispatcher sees exactly the request the stub posted,
      and the stub gets back the dispatcher's response, i.e. the backend's
      answer to a read, write or poll in a connected mode and 0 otherwise. */
  lemma RpcAnswered(mode: D.NetMode, m: Bytes, a: u32, online: u32, key: seq<bv8>, info: seq<u8>,
                    connected: bool, answer: u32, rpc: Rpc)
    requires a != 0 && rpc.response == 0
    requires forall k :: 0 <= k < 6 ==> Disjoint(online, 4, WordAddr(a, k), 4)
    ensures RpcResult(m, a, rpc, HostRpc(mode, a, online, key, info, connected, answer)).response
         == D.Response(mode, rpc, answer)
  {
    var posted := StoredWords(m, a, Words(rpc));
    MailboxStored(m, a, rpc);
    D.HandledMailbox(mode, posted, a, online, key, info, connected, answer);
  }

  // ---------------------------------------------------------------------
  // Socket stubs.

  /** `readable_size` of `gdx_TcpGetStatus`: the poll result read as a
      signed `int`, clamped to 0x7fff, and 0 unless it is positive. */
  function Readable(n: u32): (r: u32)
    ensures r <= 0x7fff
    ensures r == 0 <==> ToInt32(n) <= 0
    ensures 0 < ToInt32(n) <= 0x7fff ==> r == n
    ensures 0x7fff < ToInt32(n) ==> r == 0x7fff
  {
    var s := ToInt32(n);
    if 0 < s then (if s <= 0x7fff then s else 0x7fff) else 0
  }

  /** The two status words at `dst`. */
  function StatusWritten(m: Bytes, dst: u32, n: u32): Bytes {
    Store32(Store32(m, dst, 0), WordAddr(dst, 1), Readable(n))
  }

  /** The caller finds 0 in the first status word and the readable size in
      the second. */
  lemma StatusWords(m: Bytes, dst: u32, n: u32)
    ensures Load32(StatusWritten(m, dst, n), dst) == 0
    ensures Load32(StatusWritten(m, dst, n), WordAddr(dst, 1)) == Readable(n)
  {
    var m1 := Store32(m, dst, 0);
    Load32Store32(m1, WordAddr(dst, 1), Readable(n));
    Load32Store32(m, dst, 0);
    WordsApart(dst, 0, 1);
    Load32StoreDisjoint(m1, WordAddr(dst, 1), Readable(n), dst);
  }

  /** `gdx_TcpGetStatus`: 0 when the poll reports pending bytes, -1 (as
      `u32`) otherwise. */
  method TcpGetStatus(mem: Memory, a: u32, sock: u32, dst: u32, host: Bytes -> Bytes) returns (ret: u32)
    modifies mem
    ensures var c := RpcResult(old(mem.bytes), a, Rpc(SOCK_POLL, 0, 0, 0, 0, 0), host);
            && mem.bytes == StatusWritten(c.bytes, dst, c.response)
            && ret == if 0 < ToInt32(c.response) then 0 else 0xFFFF_FFFF
  {
    ret := 0xFFFF_FFFF;
    var readableSize: u32 := 0;
    var polled := RpcCall(mem, a, SOCK_POLL, 0, 0, 0, 0, host);
    var n := ToInt32(polled);
    if 0 < n {
      ret := 0;
      readableSize := if n <= 0x7fff then n else 0x7fff;
    }
    mem.Write32(dst, 0);
    mem.Write32(AddrAdd(dst, 4), readableSize);
  }

  /** `gdx_Ave_TcpSend`: a zero-length send returns 0 without an RPC. */
  method TcpSend(mem: Memory, a: u32, sock: u32, ptr: u32, len: u32, host: Bytes -> Bytes) returns (r: u32)
    modifies mem
    ensures len == 0 ==> r == 0 && mem.bytes == old(mem.bytes)
    ensures len != 0 ==> var c := RpcResult(old(mem.bytes), a, Rpc(SOCK_WRITE, 0, ptr, len, 0, 0), host);
                         mem.bytes == c.bytes && r == c.response
  {
    if len == 0 {
      return 0;
    }
    r := RpcCall(mem, a, SOCK_WRITE, ptr, len, 0, 0, host);
  }

  /** `gdx_Ave_TcpRecv`: a zero-length receive returns 0 without an RPC. */
  method TcpRecv(mem: Memory, a: u32, sock: u32, ptr: u32, len: u32, host: Bytes -> Bytes) returns (r: u32)
    modifies mem
    ensures len == 0 ==> r == 0 && mem.bytes == old(mem.bytes)
    ensures len != 0 ==> var c := RpcResult(old(mem.bytes), a, Rpc(SOCK_READ, 0, ptr, len, 0, 0), host);
                         mem.bytes == c.bytes && r == c.response
  {
    if len == 0 {
      return 0;
    }
    r := RpcCall(mem, a, SOCK_READ, ptr, len, 0, 0, host);
  }

  /** `gdx_McsReceive`: the match-server receive, the same read RPC. */
  method McsReceive(mem: Memory, a: u32, ptr: u32, len: u32, host: Bytes -> Bytes) returns (r: u32)
    modifies mem
    ensures len == 0 ==> r == 0 && mem.bytes == old(mem.bytes)
    ensures len != 0 ==> var c := RpcResult(old(mem.bytes), a, Rpc(SOCK_READ, 0, ptr, len, 0, 0), host);
                         mem.bytes == c.bytes && r == c.response
  {
    if len == 0 {
      return 0;
    }
    r := RpcCall(mem, a, SOCK_READ, ptr, len, 0, 0, host);
  }

  /** Bitwise or of two naturals, bit by bit from the least significant. */
  function Or(x: nat, y: nat): (r: nat)
    ensures r <= x + y
    decreases x + y
  {
    if x == 0 then y
    else if y == 0 then x
    else 2 * Or(x / 2, y / 2) + (if x % 2 == 1 || y % 2 == 1 then 1 else 0)
  }

  function Pow2(k: nat): (p: nat)
    ensures p >= 1
  {
    if k == 0 then 1 else 2 * Pow2(k - 1)
  }

  /** Or-ing numbers whose bits do not overlap adds them. */
  lemma {:induction false} OrDisjoint(x: nat, c: nat, k: nat)
    requires x < Pow2(k)
    ensures Or(x, c * Pow2(k)) == x + c * Pow2(k)
    decreases k
  {
    if x != 0 && c != 0 {
      var p := Pow2(k - 1);
      assert c * Pow2(k) == 2 * (c * p);
      assert (c * Pow2(k)) / 2 == c * p && (c * Pow2(k)) % 2 == 0;
      OrDisjoint(x / 2, c, k - 1);
    }
  }

  /** The port as `gdx_Ave_TcpOpen` passes it on: `port >> 8 | (port & 0xff) << 8`. */
  function SwappedPort(port: u32): u32 {
    Or(port / 0x100, (port % 0x100) * 0x100)
  }

  /** For a 16-bit port the two bytes trade places, and swapping twice
      gives the port back. */
  lemma SwappedPortSmall(port: u32)
    requires port < 0x1_0000
    ensures SwappedPort(port) == (port % 0x100) * 0x100 + port / 0x100
    ensures SwappedPort(SwappedPort(port)) == port
  {
    assert Pow2(8) == 0x100;
    OrDisjoint(port / 0x100, port % 0x100, 8);
    var s := (port % 0x100) * 0x100 + port / 0x100;
    assert s / 0x100 == port % 0x100 && s % 0x100 == port / 0x100;
    OrDisjoint(s / 0x100, s % 0x100, 8);
  }

  /** The lobby's dummy address handed out by the hostname stubs. */
  const LOBBY_IP: u32 := 0x0077

  /** `gdx_gethostbyname_ps2_0`: a dummy ticket. */
  function GethostbynamePs2Zero(hostname: u32): u32 {
    7
  }

  /** `gdx_gethostbyname_ps2_1`: the lobby address. */
  function GethostbynamePs2One(ticket: u32): u32 {
    LOBBY_IP
  }

  /** `gdx_gethostbyname_ps2_release`: success. */
  function GethostbynamePs2Release(ticket: u32): u32 {
    0
  }

  /** The open request `gdx_Ave_TcpOpen` posts. */
  function OpenRequest(ip: u32, port: u32): Rpc {
    Rpc(SOCK_OPEN, 0, if ip == LOBBY_IP then 1 else 0, ip, SwappedPort(port), 0)
  }

  /** Opening the address the hostname lookup returned goes to the lobby
      server; any other address goes to a match server. */
  lemma OpenGoesWhereDialled(mode: D.NetMode, ticket: u32, ip: u32, port: u32)
    requires mode != D.Replay
    ensures D.NextMode(mode, OpenRequest(GethostbynamePs2One(ticket), port), true) == D.Lbs
    ensures D.LobbyOpened(mode, OpenRequest(GethostbynamePs2One(ticket), port), true)
    ensures ip != LOBBY_IP ==> D.NextMode(mode, OpenRequest(ip, port), true) == D.McsUdp
  {
  }

  /** `gdx_Ave_TcpOpen`: always the dummy socket 7. */
  method TcpOpen(mem: Memory, a: u32, ip: u32, port: u32, host: Bytes -> Bytes) returns (sock: u32)
    modifies mem
    ensures mem.bytes == RpcResult(old(mem.bytes), a, OpenRequest(ip, port), host).bytes
    ensures sock == 7
  {
    var swapped := SwappedPort(port);
    var _ := RpcCall(mem, a, SOCK_OPEN, if ip == LOBBY_IP then 1 else 0, ip, swapped, 0, host);
    return 7;
  }

  /** `gdx_Ave_TcpClose`. */
  method TcpClose(mem: Memory, a: u32, sock: u32, host: Bytes -> Bytes) returns (r: u32)
    modifies mem
    ensures mem.bytes == RpcResult(old(mem.bytes), a, Rpc(SOCK_CLOSE, 0, 0, 0, 0, 0), host).bytes
    ensures r == 0
  {
    var _ := RpcCall(mem, a, SOCK_CLOSE, 0, 0, 0, 0, host);
    return 0;
  }

  // ---------------------------------------------------------------------
  // Hook installation.

  /** The stubs `write_patch` hooks in. */
  datatype Stub =
    | AveTcpOpen | AveTcpClose | AveTcpSend | AveTcpRecv | McsReceiveStub | McsDispose
    | TcpGetStatusStub | LobbyToMcsInitSocket | Gethostbyname0 | Gethostbyname1
    | GethostbynameRelease | AvepppGetStatus | PppGetUsbDeviceId | AdnsFinalize | ConnectPs2Check

  /** `write_patch`'s call sites and the stub each one is redirected to, in order. */
  const HOOKS: seq<(u32, Stub)> := [
    (0x0038_1da4, AveTcpOpen), (0x0038_2024, AveTcpClose), (0x0038_1fb4, AveTcpSend),
    (0x0038_1f7c, AveTcpRecv), (0x0037_fd2c, McsReceiveStub), (0x0038_1a88, McsDispose),
    (0x0038_2c6c, McsDispose), (0x0035_7e34, TcpGetStatusStub), (0x0035_a174, LobbyToMcsInitSocket),
    (0x0035_9e04, Gethostbyname0), (0x0035_9e78, Gethostbyname1), (0x0035_9ea4, GethostbynameRelease),
    (0x0035_9ec4, GethostbynameRelease), (0x0035_97b8, AvepppGetStatus), (0x0036_43c8, AvepppGetStatus),
    (0x0038_2678, PppGetUsbDeviceId), (0x0038_28e0, PppGetUsbDeviceId), (0x0035_9d34, AdnsFinalize),
    (0x0035_9fd8, ConnectPs2Check)]

  /** `COM_R_NO2`, the dial status the game waits for. */
  const DIAL_STATUS_ADDR: u32 := 0x0057_fee8

  /** Memory after the `jal` words of `hooks` are written in order; `entry`
      gives each stub's address, which the linker chooses. */
  function Hooked(m: Bytes, hooks: seq<(u32, Stub)>, entry: Stub -> u32): Bytes
    decreases |hooks|
  {
    if hooks == [] then m
    else
      var h := hooks[|hooks| - 1];
      Store32(Hooked(m, hooks[..|hooks| - 1], entry), h.0, OpJal(entry(h.1)))
  }

  /** `gdx_dial_start`: the dial status is set to 2 every time; the hooks
      are written only when the patch has not been initialised yet. */
  function Dialed(m: Bytes, initialized: bool, entry: Stub -> u32): Bytes {
    var m1 := Store32(m, DIAL_STATUS_ADDR, 2);
    if initialized then m1 else Hooked(m1, HOOKS, entry)
  }

  /** Hook writes leave a word that no call site overlaps alone. */
  lemma {:induction false} HookedOutside(m: Bytes, hooks: seq<(u32, Stub)>, entry: Stub -> u32, b: u32)
    requires forall i :: 0 <= i < |hooks| ==> Disjoint(hooks[i].0, 4, b, 4)
    ensures Load32(Hooked(m, hooks, entry), b) == Load32(m, b)
    decreases |hooks|
  {
    if hooks != [] {
      var n := |hooks| - 1;
      HookedOutside(m, hooks[..n], entry, b);
      Load32StoreDisjoint(Hooked(m, hooks[..n], entry), hooks[n].0, OpJal(entry(hooks[n].1)), b);
    }
  }

  /** A word that ends at or below `y` does not overlap the word at `y`. */
  lemma BelowDisjoint(x: u32, y: u32)
    requires x + 4 <= y && y + 4 <= ADDR_SPACE
    ensures Disjoint(x, 4, y, 4)
  {
    ModUnique(y - x, y - x);
    ModUnique(x - y, ADDR_SPACE + x - y);
  }

  /** After every dial start, first or repeated, the game reads dial status 2. */
  lemma DialStatusSet(m: Bytes, initialized: bool, entry: Stub -> u32)
    ensures Load32(Dialed(m, initialized, entry), DIAL_STATUS_ADDR) == 2
  {
    var m1 := Store32(m, DIAL_STATUS_ADDR, 2);
    Load32Store32(m, DIAL_STATUS_ADDR, 2);
    if !initialized {
      forall i | 0 <= i < |HOOKS|
        ensures Disjoint(HOOKS[i].0, 4, DIAL_STATUS_ADDR, 4)
      {
        BelowDisjoint(HOOKS[i].0, DIAL_STATUS_ADDR);
      }
      HookedOutside(m1, HOOKS, entry, DIAL_STATUS_ADDR);
    }
  }

  /** A repeated dial start changes nothing besides the dial status word. */
  lemma DialStartRepeated(m: Bytes, entry: Stub -> u32, b: u32)
    requires Disjoint(DIAL_STATUS_ADDR, 4, b, 4)
    ensures Load32(Dialed(m, true, entry), b) == Load32(m, b)
  {
    Load32StoreDisjoint(m, DIAL_STATUS_ADDR, 2, b);
  }

  /** `write_patch`. */
  method WritePatch(mem: Memory, entry: Stub -> u32)
    modifies mem
    ensures mem.bytes == Hooked(old(mem.bytes), HOOKS, entry)
  {
    for i := 0 to |HOOKS|
      invariant mem.bytes == Hooked(old(mem.bytes), HOOKS[..i], entry)
    {
      mem.Write32(HOOKS[i].0, OpJal(entry(HOOKS[i].1)));
      assert HOOKS[..i + 1][..i] == HOOKS[..i];
    }
    assert HOOKS[..|HOOKS|] == HOOKS;
  }

  /** The patch's global state in guest memory. */
  class GuestPatch {
    const mem: Memory
    var initialized: bool

    constructor (mem: Memory)
      ensures this.mem == mem && !initialized
    {
      this.mem := mem;
      initialized := false;
    }

    /** `gdx_dial_start`; once it has run, `gdx_initialized` stays set. */
    method DialStart(entry: Stub -> u32)
      modifies mem, this`initialized
      ensures mem.bytes == Dialed(old(mem.bytes), old(initialized), entry)
      ensures initialized
    {
      mem.Write32(DIAL_STATUS_ADDR, 2);
      if initialized {
        return;
      }
      WritePatch(mem, entry);
      initialized := true;
    }
  }
}
