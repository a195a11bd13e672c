/**
  Online patches: lists of (size, address, original, changed) codes that the
  server or a battle log asks the emulator to write into guest memory, and to
  undo later. Both the dispatcher (`Gdxsv::ApplyOnlinePatch`,
  `Gdxsv::RestoreOnlinePatch`) and the replay bridge
  (`GdxsvBackendRollback::ApplyPatch`, `RestorePatch`) walk patch lists in the
  same way; the walk is specified once here and performed by the two methods
  at the end of the module.
*/
module OnlinePatch {
  import opened GuestMemory

  datatype PatchCode = PatchCode(size: int, address: u32, original: u32, changed: u32)

  datatype Patch = Patch(name: string, writeOnce: bool, codes: seq<PatchCode>)

  /** Which of a code's two values is written. */
  datatype Side = Original | Changed

  function Value(c: PatchCode, side: Side): u32 {
    if side == Changed then c.changed else c.original
  }

  /** One code written: the value narrowed to 8 or 16 bits for those sizes,
      all 32 bits for size 32; a code of any other size writes nothing. */
  function CodeWritten(m: Bytes, c: PatchCode, side: Side): Bytes {
    var v := Value(c, side);
    if c.size == 8 then Store8(m, c.address, v % 0x100)
    else if c.size == 16 then Store16(m, c.address, v % 0x1_0000)
    else if c.size == 32 then Store32(m, c.address, v)
    else m
  }

  /** The codes written one after another, in order. */
  function CodesWritten(m: Bytes, codes: seq<PatchCode>, side: Side): Bytes
    decreases |codes|
  {
    if codes == [] then m
    else CodeWritten(CodesWritten(m, codes[..|codes| - 1], side), codes[|codes| - 1], side)
  }

  /** A patch is skipped when it is write-once and this is not the first application. */
  predicate Skipped(p: Patch, firstTime: bool) {
    p.writeOnce && !firstTime
  }

  /** Applying a patch list: every code of every patch that is not skipped,
      its changed value, in list order. */
  function Applied(m: Bytes, ps: seq<Patch>, firstTime: bool): Bytes
    decreases |ps|
  {
    if ps == [] then m
    else
      var before := Applied(m, ps[..|ps| - 1], firstTime);
      var p := ps[|ps| - 1];
      if Skipped(p, firstTime) then before else CodesWritten(before, p.codes, Changed)
  }

  /** Restoring a patch list: every code of every patch, its original value,
      in list order; write-once patches are restored too. */
  function Restored(m: Bytes, ps: seq<Patch>): Bytes
    decreases |ps|
  {
    if ps == [] then m
    else CodesWritten(Restored(m, ps[..|ps| - 1]), ps[|ps| - 1].codes, Original)
  }

  /** The patches a repeated application still writes. */
  function Repeated(ps: seq<Patch>): (r: seq<Patch>)
    ensures forall p :: p in r ==> p in ps && !p.writeOnce
    ensures forall p :: p in ps && !p.writeOnce ==> p in r
    decreases |ps|
  {
    if ps == [] then []
    else
      var init := Repeated(ps[..|ps| - 1]);
      var p := ps[|ps| - 1];
      assert ps == ps[..|ps| - 1] + [p];
      if p.writeOnce then init else init + [p]
  }

  // ---------------------------------------------------------------------

  /** An 8-bit code stores its value masked to 0xff and touches no other byte. */
  lemma Code8Written(m: Bytes, c: PatchCode, side: Side, b: u32)
    requires c.size == 8
    ensures Load8(CodeWritten(m, c, side), b) == if b == c.address then Value(c, side) % 0x100 else Load8(m, b)
  {
  }

  /** A 16-bit code stores its value masked to 0xffff, most significant byte
      first, and touches no other byte. */
  lemma Code16Written(m: Bytes, c: PatchCode, side: Side, b: u32)
    requires c.size == 16
    ensures Load8(CodeWritten(m, c, side), b) ==
      if b == c.address then (Value(c, side) % 0x1_0000) / 0x100
      else if b == AddrAdd(c.address, 1) then Value(c, side) % 0x100
      else Load8(m, b)
  {
    var v := Value(c, side) % 0x1_0000;
    Store16Bytes(m, c.address, v, b);
    assert v % 0x100 == Value(c, side) % 0x100;
  }

  /** A 32-bit code stores the whole value; a code of any other size writes nothing. */
  lemma Code32Written(m: Bytes, c: PatchCode, side: Side)
    ensures c.size == 32 ==> Load32(CodeWritten(m, c, side), c.address) == Value(c, side)
    ensures c.size !in {8, 16, 32} ==> CodeWritten(m, c, side) == m
  {
    if c.size == 32 {
      Load32Store32(m, c.address, Value(c, side));
    }
  }

  /** A code leaves every byte it does not cover alone. */
  lemma CodeWrittenAvoids(m: Bytes, c: PatchCode, side: Side, b: u32)
    requires Avoids(c, b)
    ensures Load8(CodeWritten(m, c, side), b) == Load8(m, b)
  {
    if c.size == 16 {
      Code16Written(m, c, side, b);
    } else if c.size == 32 {
      WrittenBlockLoad(m, c.address, LittleEndian32(Value(c, side)), b);
    }
  }

  /** A repeated application (`first_time` false) writes exactly what a first
      application of the patches that are not write-once writes. */
  lemma {:induction false} RepeatedSkipsWriteOnce(m: Bytes, ps: seq<Patch>)
    ensures Applied(m, ps, false) == Applied(m, Repeated(ps), true)
    decreases |ps|
  {
    if ps != [] {
      var init := ps[..|ps| - 1];
      var p := ps[|ps| - 1];
      RepeatedSkipsWriteOnce(m, init);
      if !p.writeOnce {
        assert (Repeated(init) + [p])[..|Repeated(init) + [p]| - 1] == Repeated(init);
      }
    }
  }

  /** On a first application nothing is skipped: the changed values of every
      patch are written. */
  lemma {:induction false} FirstTimeWritesAll(m: Bytes, ps: seq<Patch>)
    ensures Applied(m, ps, true) == AppliedAll(m, ps)
    decreases |ps|
  {
    if ps != [] {
      FirstTimeWritesAll(m, ps[..|ps| - 1]);
    }
  }

  /** Every patch's changed values, in order, with no skipping. */
  function AppliedAll(m: Bytes, ps: seq<Patch>): Bytes
    decreases |ps|
  {
    if ps == [] then m
    else CodesWritten(AppliedAll(m, ps[..|ps| - 1]), ps[|ps| - 1].codes, Changed)
  }

  /** Byte `b` lies outside the bytes code `c` writes. */
  predicate Avoids(c: PatchCode, b: u32) {
    && c.address != b
    && (c.size != 16 || AddrAdd(c.address, 1) != b)
    && (c.size != 32 || Offset(c.address, b) >= 4)
  }

  /** Writing a list of codes leaves every byte they do not cover alone. */
  lemma {:induction false} CodesWrittenOutside(m: Bytes, codes: seq<PatchCode>, side: Side, b: u32)
    requires forall c :: c in codes ==> Avoids(c, b)
    ensures Load8(CodesWritten(m, codes, side), b) == Load8(m, b)
    decreases |codes|
  {
    if codes != [] {
      var init := codes[..|codes| - 1];
      var c := codes[|codes| - 1];
      assert forall x :: x in init ==> x in codes;
      CodesWrittenOutside(m, init, side, b);
      CodeWrittenAvoids(CodesWritten(m, init, side), c, side, b);
    }
  }

  /** No code of any patch in the list covers byte `b`. */
  predicate PatchesAvoid(ps: seq<Patch>, b: u32) {
    forall p, c :: p in ps && c in p.codes ==> Avoids(c, b)
  }

  /** Applying a patch list leaves every byte its codes do not cover alone. */
  lemma {:induction false} AppliedOutside(m: Bytes, ps: seq<Patch>, firstTime: bool, b: u32)
    requires PatchesAvoid(ps, b)
    ensures Load8(Applied(m, ps, firstTime), b) == Load8(m, b)
    decreases |ps|
  {
    if ps != [] {
      var init := ps[..|ps| - 1];
      var p := ps[|ps| - 1];
      assert forall q :: q in init ==> q in ps;
      AppliedOutside(m, init, firstTime, b);
      if !Skipped(p, firstTime) {
        CodesWrittenOutside(Applied(m, init, firstTime), p.codes, Changed, b);
      }
    }
  }

  // ---------------------------------------------------------------------
  // The walk over guest memory.

  method WriteCode(mem: Memory, c: PatchCode, side: Side)
    modifies mem
    ensures mem.bytes == CodeWritten(old(mem.bytes), c, side)
  {
    var v := Value(c, side);
    if c.size == 8 {
      mem.Write8(c.address, v % 0x100);
    }
    if c.size == 16 {
      mem.Write16(c.address, v % 0x1_0000);
    }
    if c.size == 32 {
      mem.Write32(c.address, v);
    }
  }

  method WriteCodes(mem: Memory, codes: seq<PatchCode>, side: Side)
    modifies mem
    ensures mem.bytes == CodesWritten(old(mem.bytes), codes, side)
  {
    for j := 0 to |codes|
      invariant mem.bytes == CodesWritten(old(mem.bytes), codes[..j], side)
    {
      WriteCode(mem, codes[j], side);
      assert codes[..j + 1][..j] == codes[..j];
    }
    assert codes[..|codes|] == codes;
  }

  /** Writes the changed values of every patch not skipped. */
  method ApplyPatches(mem: Memory, ps: seq<Patch>, firstTime: bool)
    modifies mem
    ensures mem.bytes == Applied(old(mem.bytes), ps, firstTime)
  {
    for i := 0 to |ps|
      invariant mem.bytes == Applied(old(mem.bytes), ps[..i], firstTime)
    {
      assert ps[..i + 1][..i] == ps[..i];
      if Skipped(ps[i], firstTime) {
        continue;
      }
      WriteCodes(mem, ps[i].codes, Changed);
    }
    assert ps[..|ps|] == ps;
  }

  /** Writes the original values of every patch. */
  method RestorePatches(mem: Memory, ps: seq<Patch>)
    modifies mem
    ensures mem.bytes == Restored(old(mem.bytes), ps)
  {
    for i := 0 to |ps|
      invariant mem.bytes == Restored(old(mem.bytes), ps[..i])
    {
      assert ps[..i + 1][..i] == ps[..i];
      WriteCodes(mem, ps[i].codes, Original);
    }
    assert ps[..|ps|] == ps;
  }
}
