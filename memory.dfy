/**
  Guest memory of the emulated PS2, as the gdxsv helpers in libs.h see it:
  a byte-addressed 32-bit address space. An address that was never written
  reads as 0. The 8-bit and 32-bit accessors of the emulator's debug
  interface are modelled as byte stores on this map (32-bit words in the
  Emotion Engine's little-endian order); `gdxsv_WriteMem16`,
  `gdxsv_ReadMemBlock` and `gdxsv_WriteMemBlock` are built on them exactly as
  the header builds them.
*/
module GuestMemory {

  type u8 = x: int | 0 <= x < 0x100
  type u16 = x: int | 0 <= x < 0x1_0000
  type u32 = x: int | 0 <= x < 0x1_0000_0000

  const ADDR_SPACE: nat := 0x1_0000_0000

  /** C++ conversion of an integer to `u32`: reduction modulo 2^32. */
  function ToU32(x: int): (r: u32)
    ensures 0 <= x < ADDR_SPACE ==> r == x
    ensures (x - r) % ADDR_SPACE == 0
  {
    x % ADDR_SPACE
  }

  /** C++ conversion of an integer to `u8`. */
  function ToU8(x: int): (r: u8)
    ensures 0 <= x < 0x100 ==> r == x
    ensures (x - r) % 0x100 == 0
  {
    x % 0x100
  }

  /** C++ conversion of an integer to `u16`. */
  function ToU16(x: int): (r: u16)
    ensures 0 <= x < 0x1_0000 ==> r == x
    ensures (x - r) % 0x1_0000 == 0
  {
    x % 0x1_0000
  }

  /** A `u32` read back as a signed 32-bit `int` (two's complement). */
  function ToInt32(x: u32): (r: int)
    ensures -0x8000_0000 <= r < 0x8000_0000
    ensures ToU32(r) == x
    ensures r < 0 <==> x >= 0x8000_0000
  {
    if x < 0x8000_0000 then x else x - ADDR_SPACE
  }

  /** The guest address `a + i`, wrapping at 2^32 as `u32` arithmetic does. */
  function AddrAdd(a: u32, i: int): u32 {
    ToU32(a + i)
  }

  /** How far `b` lies after `a` in the wrapping address space. */
  function Offset(a: u32, b: u32): (k: nat)
    ensures k < ADDR_SPACE && AddrAdd(a, k) == b
  {
    (b - a) % ADDR_SPACE
  }

  lemma OffsetOfAddrAdd(a: u32, k: int)
    requires 0 <= k < ADDR_SPACE
    ensures Offset(a, AddrAdd(a, k)) == k
  {
  }

  /** The byte ranges [a, a+n) and [b, b+k) do not overlap (addresses wrap). */
  predicate Disjoint(a: u32, n: nat, b: u32, k: nat) {
    Offset(a, b) >= n && Offset(b, a) >= k
  }

  /** Guest memory contents. */
  type Bytes = map<u32, u8>

  /** The byte at `a`; memory that was never written reads as 0. */
  function Load8(m: Bytes, a: u32): u8 {
    if a in m then m[a] else 0
  }

  /** `n` consecutive bytes starting at `a`. */
  function Block(m: Bytes, a: u32, n: nat): (s: seq<u8>)
    ensures |s| == n
  {
    seq(n, i requires 0 <= i < n => Load8(m, AddrAdd(a, i)))
  }

  /** Memory after the bytes of `s` are stored at `d`, `d+1`, ..., in order. */
  function WrittenBlock(m: Bytes, d: u32, s: seq<u8>): Bytes
    decreases |s|
  {
    if s == [] then m
    else WrittenBlock(m, d, s[..|s| - 1])[AddrAdd(d, |s| - 1) := s[|s| - 1]]
  }

  /** After storing `s` at `d`, the byte at `b` is the byte of `s` at `b`'s
      offset if that offset lies in `s`, and the old byte otherwise. */
  lemma {:induction false} WrittenBlockLoad(m: Bytes, d: u32, s: seq<u8>, b: u32)
    requires |s| <= ADDR_SPACE
    ensures Load8(WrittenBlock(m, d, s), b)
            == if Offset(d, b) < |s| then s[Offset(d, b)] else Load8(m, b)
    decreases |s|
  {
    if s != [] {
      var n := |s| - 1;
      WrittenBlockLoad(m, d, s[..n], b);
      OffsetOfAddrAdd(d, n);
    }
  }

  /** Reading back a block just written returns the written bytes. */
  lemma ReadAfterWrite(m: Bytes, d: u32, s: seq<u8>)
    requires |s| <= ADDR_SPACE
    ensures Block(WrittenBlock(m, d, s), d, |s|) == s
  {
    forall i | 0 <= i < |s|
      ensures Block(WrittenBlock(m, d, s), d, |s|)[i] == s[i]
    {
      OffsetOfAddrAdd(d, i);
      WrittenBlockLoad(m, d, s, AddrAdd(d, i));
    }
  }

  /** Writing back a block just read changes no byte of memory. */
  lemma WriteBackUnchanged(m: Bytes, d: u32, n: nat, b: u32)
    requires n <= ADDR_SPACE
    ensures Load8(WrittenBlock(m, d, Block(m, d, n)), b) == Load8(m, b)
  {
    WrittenBlockLoad(m, d, Block(m, d, n), b);
  }

  /** A store at `d` leaves every byte outside [d, d+|s|) as it was. */
  lemma WrittenBlockOutside(m: Bytes, d: u32, s: seq<u8>, b: u32, k: nat)
    requires |s| <= ADDR_SPACE && Disjoint(d, |s|, b, k)
    ensures Block(WrittenBlock(m, d, s), b, k) == Block(m, b, k)
  {
    forall j | 0 <= j < k
      ensures Block(WrittenBlock(m, d, s), b, k)[j] == Block(m, b, k)[j]
    {
      DisjointOffset(d, |s|, b, k, j);
      WrittenBlockLoad(m, d, s, AddrAdd(b, j));
    }
  }

  lemma DisjointOffset(a: u32, n: nat, b: u32, k: nat, j: nat)
    requires Disjoint(a, n, b, k) && j < k
    ensures Offset(a, AddrAdd(b, j)) >= n
  {
    if n > 0 {
      var o := Offset(a, b);
      assert (b - a - o) % ADDR_SPACE == 0;
      assert Offset(b, a) == ADDR_SPACE - o by {
        assert (a - b - (ADDR_SPACE - o)) % ADDR_SPACE == 0;
      }
      assert o + j < ADDR_SPACE;
      assert (b + j - a - (o + j)) % ADDR_SPACE == 0;
      assert Offset(a, AddrAdd(b, j)) == o + j by {
        ModUnique(b + j - a, o + j);
        ModUnique(AddrAdd(b, j) - a, o + j);
      }
    }
  }

  /** `r` is the remainder of `x` modulo 2^32 when it lies in range and differs by a multiple. */
  lemma ModUnique(x: int, r: int)
    requires 0 <= r < ADDR_SPACE && (x - r) % ADDR_SPACE == 0
    ensures x % ADDR_SPACE == r
  {
    var q := (x - r) / ADDR_SPACE;
    assert x == q * ADDR_SPACE + r;
  }

  /** The four bytes of a word, least significant first. */
  function LittleEndian32(v: u32): (s: seq<u8>)
    ensures |s| == 4 && FromLittleEndian32(s) == v
  {
    var q1 := v / 0x100;
    var q2 := q1 / 0x100;
    var q3 := q2 / 0x100;
    assert v == v % 0x100 + 0x100 * q1;
    assert q1 == q1 % 0x100 + 0x100 * q2;
    assert q2 == q2 % 0x100 + 0x100 * q3;
    assert q3 < 0x100;
    [v % 0x100, q1 % 0x100, q2 % 0x100, q3]
  }

  /** The word held by four bytes, least significant first. */
  function FromLittleEndian32(s: seq<u8>): u32
    requires |s| == 4
  {
    s[0] as int + 0x100 * (s[1] as int) + 0x1_0000 * (s[2] as int) + 0x100_0000 * (s[3] as int)
  }

  /** `gdxsv_WriteMem8`: one byte. */
  function Store8(m: Bytes, a: u32, v: u8): Bytes {
    m[a := v]
  }

  /** `gdxsv_WriteMem16`: high byte at `a`, low byte at `a+1`. */
  function Store16(m: Bytes, a: u32, v: u16): Bytes {
    WrittenBlock(m, a, [v / 0x100, v % 0x100])
  }

  /** `gdxsv_WriteMem32`: a little-endian word at `a`. */
  function Store32(m: Bytes, a: u32, v: u32): Bytes {
    WrittenBlock(m, a, LittleEndian32(v))
  }

  /** `gdxsv_ReadMem32`: the little-endian word at `a`. */
  function Load32(m: Bytes, a: u32): u32 {
    FromLittleEndian32(Block(m, a, 4))
  }

  /** A word reads back as it was stored. */
  lemma Load32Store32(m: Bytes, a: u32, v: u32)
    ensures Load32(Store32(m, a, v), a) == v
  {
    ReadAfterWrite(m, a, LittleEndian32(v));
  }

  /** A word store leaves a disjoint word as it was. */
  lemma Load32StoreDisjoint(m: Bytes, a: u32, v: u32, b: u32)
    requires Disjoint(a, 4, b, 4)
    ensures Load32(Store32(m, a, v), b) == Load32(m, b)
  {
    WrittenBlockOutside(m, a, LittleEndian32(v), b, 4);
  }

  /** `gdxsv_WriteMem16` puts `v >> 8` at `a`, `v & 0xff` at `a+1`, and touches no other byte. */
  lemma Store16Bytes(m: Bytes, a: u32, v: u16, b: u32)
    ensures Load8(Store16(m, a, v), b)
            == if b == a then v / 0x100
               else if b == AddrAdd(a, 1) then v % 0x100
               else Load8(m, b)
  {
    WrittenBlockLoad(m, a, [v / 0x100, v % 0x100], b);
    OffsetOfAddrAdd(a, 0);
    OffsetOfAddrAdd(a, 1);
  }

  /**
    The emulated machine's memory, shared by the host-side gdxsv code and the
    guest-side patch stubs.
  */
  class Memory {
    var bytes: Bytes

    constructor (initial: Bytes)
      ensures bytes == initial
    {
      bytes := initial;
    }

    /** `gdxsv_ReadMem8`. */
    function Read8(a: u32): u8
      reads this
    {
      Load8(bytes, a)
    }

    /** `gdxsv_ReadMem32`. */
    function Read32(a: u32): u32
      reads this
    {
      Load32(bytes, a)
    }

    /** `gdxsv_WriteMem8`. */
    method Write8(a: u32, v: u8)
      modifies this
      ensures bytes == Store8(old(bytes), a, v)
    {
      bytes := bytes[a := v];
    }

    /** `gdxsv_WriteMem32`. */
    method Write32(a: u32, v: u32)
      modifies this
      ensures bytes == Store32(old(bytes), a, v)
    {
      WriteBlock(a, LittleEndian32(v));
    }

    /** `gdxsv_WriteMem16`: two byte writes, high byte first. */
    method Write16(a: u32, v: u16)
      modifies this
      ensures bytes == Store16(old(bytes), a, v)
    {
      ghost var m := bytes;
      Write8(a, v / 0x100);
      Write8(AddrAdd(a, 1), v % 0x100);
      var s: seq<u8> := [v / 0x100, v % 0x100];
      assert s[..1] == [v / 0x100] && s[..1][..0] == [];
      assert WrittenBlock(m, a, s[..1]) == m[a := v / 0x100];
    }

    /** `gdxsv_ReadMemBlock`: copies `size` bytes starting at `addr` out of guest memory. */
    method ReadBlock(addr: u32, size: u32) returns (dst: seq<u8>)
      ensures |dst| == size
      ensures forall i :: 0 <= i < size ==> dst[i] == Load8(bytes, AddrAdd(addr, i))
    {
      dst := [];
      var i := 0;
      while i < size
        invariant 0 <= i <= size
        invariant |dst| == i
        invariant forall j :: 0 <= j < i ==> dst[j] == Load8(bytes, AddrAdd(addr, j))
      {
        dst := dst + [Read8(AddrAdd(addr, i))];
        i := i + 1;
      }
    }

    /** `gdxsv_WriteMemBlock`: stores the bytes of `src` at `dst`, `dst+1`, ... */
    method WriteBlock(dst: u32, src: seq<u8>)
      requires |src| < ADDR_SPACE
      modifies this
      ensures bytes == WrittenBlock(old(bytes), dst, src)
    {
      var i := 0;
      while i < |src|
        invariant 0 <= i <= |src|
        invariant bytes == WrittenBlock(old(bytes), dst, src[..i])
      {
        Write8(AddrAdd(dst, i), src[i]);
        assert src[..i + 1][..i] == src[..i];
        i := i + 1;
      }
      assert src[..|src|] == src;
    }
  }
}
