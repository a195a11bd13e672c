/**
  The GGPO sync-test backend used by gdxsv (GdxsvSyncTestBackend).

  Every forward frame is recorded in a FIFO together with the checksum of the
  state the game saved for it. Once the engine is exactly `checkDistance`
  frames ahead of the last verified frame, the host rewinds to that frame,
  replays the frames one by one and compares each replayed checksum with the
  recorded one; a mismatch is a desync. GGPO's `Sync` object is reduced to
  what the backend uses: a frame counter, the last frame the game saved, and
  `LoadFrame`, which resets the counter.

  The backend is a class whose methods update its fields in place; each
  method is specified by a function on the `Backend` value that the fields
  make up, and the lemmas at the end state what those functions promise.
*/
module SyncTest {
  import opened Wrappers
  import opened GuestMemory

  /** What the game's save callback produced for one frame. */
  datatype SavedFrame = SavedFrame(buf: seq<u8>, checksum: int)

  /** One entry of the saved-frame FIFO. */
  datatype SavedInfo = SavedInfo(frame: int, input: seq<u8>, buf: seq<u8>, checksum: int)

  /** The sync errors the backend raises. */
  datatype SyncError =
    | NotInRollback
    | FrameMismatch(saved: int, current: int)
    | ChecksumMismatch(frame: int, computed: int, saved: int)
    | BeginFrameMismatch(current: int, begin: int)

  /** The backend's state, field by field. */
  datatype Backend = Backend(
    checkDistance: int,
    frame: int,
    lastSaved: SavedFrame,
    currentInput: seq<u8>,
    lastInput: seq<u8>,
    lastVerified: int,
    rollingback: bool,
    beginRollbackFrame: int,
    savedFrames: seq<SavedInfo>)

  /** A state after an operation, with the error it raised, if any. */
  datatype Outcome = Outcome(after: Backend, error: Option<SyncError>)

  /** A freshly created backend: frame 0, nothing verified, nothing queued. */
  function Initial(checkDistance: int, inputSize: nat): Backend {
    Backend(checkDistance, 0, SavedFrame([], 0), Erased(seq(inputSize, _ => 0)), seq(inputSize, _ => 0),
            0, false, 0, [])
  }

  /** `GameInput::erase`: every input byte cleared. */
  function Erased(input: seq<u8>): (r: seq<u8>)
    ensures |r| == |input| && forall i :: 0 <= i < |r| ==> r[i] == 0
  {
    seq(|input|, _ => 0)
  }

  /** `_sync.IncrementFrame()` (the game saves the new frame as `snap`)
      followed by clearing the current input. */
  function Advanced(b: Backend, snap: SavedFrame): Backend {
    b.(frame := b.frame + 1, lastSaved := snap, currentInput := Erased(b.currentInput))
  }

  /** `IncrementFrame`. */
  function Incremented(b: Backend, snap: SavedFrame): Backend {
    var b' := Advanced(b, snap);
    if b.rollingback || b.checkDistance <= 0 then b'
    else b'.(savedFrames := b.savedFrames + [SavedInfo(b'.frame, b.lastInput, snap.buf, snap.checksum)])
  }

  /** `BeginRollback`: the new state and the number of frames to replay. */
  function RolledBack(b: Backend): (Backend, int) {
    if 0 < b.checkDistance && b.frame - b.lastVerified == b.checkDistance then
      (b.(frame := b.lastVerified, rollingback := true, beginRollbackFrame := b.frame), b.checkDistance)
    else
      (b, 0)
  }

  /** `StepRollback`: advance one frame (the game saves it as `snap`), pop the
      oldest saved frame and compare frame number and checksum. */
  function Stepped(b: Backend, snap: SavedFrame): Outcome
    requires b.rollingback ==> b.savedFrames != []
  {
    if !b.rollingback then Outcome(b, Some(NotInRollback))
    else
      var advanced := Incremented(b, snap);
      var info := advanced.savedFrames[0];
      var b' := advanced.(savedFrames := advanced.savedFrames[1..]);
      if info.frame != b'.frame then Outcome(b', Some(FrameMismatch(info.frame, b'.frame)))
      else if info.checksum != b'.lastSaved.checksum then
        Outcome(b', Some(ChecksumMismatch(b'.frame, b'.lastSaved.checksum, info.checksum)))
      else Outcome(b', None)
  }

  /** `EndRollback`. */
  function Ended(b: Backend): Outcome {
    if !b.rollingback then Outcome(b, Some(NotInRollback))
    else if b.frame != b.beginRollbackFrame then
      Outcome(b, Some(BeginFrameMismatch(b.frame, b.beginRollbackFrame)))
    else Outcome(b.(lastVerified := b.beginRollbackFrame, rollingback := false), None)
  }

  /** The FIFO holds frames base+1, base+2, ... in order. */
  ghost predicate Consecutive(q: seq<SavedInfo>, base: int) {
    forall k :: 0 <= k < |q| ==> q[k].frame == base + 1 + k
  }

  /** The backend's invariant. Without verification nothing is queued. Going
      forward, the FIFO holds exactly the frames after the last verified one.
      During a rollback it holds exactly the frames still to be replayed, up
      to the frame the rollback began at, `checkDistance` frames after the
      last verified one. */
  ghost predicate Valid(b: Backend) {
    && (b.checkDistance <= 0 ==> !b.rollingback && b.savedFrames == [])
    && (b.checkDistance > 0 && !b.rollingback ==>
          Consecutive(b.savedFrames, b.lastVerified) && |b.savedFrames| == b.frame - b.lastVerified)
    && (b.rollingback ==>
          && Consecutive(b.savedFrames, b.frame)
          && b.frame + |b.savedFrames| == b.beginRollbackFrame
          && b.beginRollbackFrame == b.lastVerified + b.checkDistance)
  }

  /** The sync-test backend. */
  class GdxsvSyncTestBackend {
    const checkDistance: int
    var frame: int
    var lastSaved: SavedFrame
    var currentInput: seq<u8>
    var lastInput: seq<u8>
    var lastVerified: int
    var rollingback: bool
    var beginRollbackFrame: int
    var savedFrames: seq<SavedInfo>

    function Model(): Backend
      reads this
    {
      Backend(checkDistance, frame, lastSaved, currentInput, lastInput,
              lastVerified, rollingback, beginRollbackFrame, savedFrames)
    }

    constructor (checkDistance: int, inputSize: nat)
      ensures Model() == Initial(checkDistance, inputSize)
    {
      this.checkDistance := checkDistance;
      frame := 0;
      lastSaved := SavedFrame([], 0);
      currentInput := Erased(seq(inputSize, _ => 0));
      lastInput := seq(inputSize, _ => 0);
      lastVerified := 0;
      rollingback := false;
      beginRollbackFrame := 0;
      savedFrames := [];
    }

    /** End of a frame: the game has saved the new frame as `snap`. */
    method IncrementFrame(snap: SavedFrame)
      modifies this
      ensures Model() == Incremented(old(Model()), snap)
    {
      frame := frame + 1;
      lastSaved := snap;
      currentInput := Erased(currentInput);
      if rollingback {
        return;
      }
      if 0 < checkDistance {
        var info := SavedInfo(frame, lastInput, lastSaved.buf, lastSaved.checksum);
        savedFrames := savedFrames + [info];
      }
    }

    method BeginRollback() returns (rollbackFrame: int)
      modifies this
      ensures (Model(), rollbackFrame) == RolledBack(old(Model()))
    {
      rollbackFrame := 0;
      var current := frame;
      if 0 < checkDistance && current - lastVerified == checkDistance {
        frame := lastVerified;
        rollingback := true;
        rollbackFrame := checkDistance;
        beginRollbackFrame := current;
      }
    }

    /** Replays one frame; the game saves the replayed frame as `replayed`. */
    method StepRollback(replayed: SavedFrame) returns (error: Option<SyncError>)
      requires rollingback ==> savedFrames != []
      modifies this
      ensures Outcome(Model(), error) == Stepped(old(Model()), replayed)
    {
      if !rollingback {
        return Some(NotInRollback);
      }
      IncrementFrame(replayed);
      var info := savedFrames[0];
      savedFrames := savedFrames[1..];
      if info.frame != frame {
        return Some(FrameMismatch(info.frame, frame));
      }
      var checksum := lastSaved.checksum;
      if info.checksum != checksum {
        return Some(ChecksumMismatch(frame, checksum, info.checksum));
      }
      return None;
    }

    method EndRollback() returns (error: Option<SyncError>)
      modifies this
      ensures Outcome(Model(), error) == Ended(old(Model()))
    {
      if !rollingback {
        return Some(NotInRollback);
      }
      if frame != beginRollbackFrame {
        return Some(BeginFrameMismatch(frame, beginRollbackFrame));
      }
      lastVerified := beginRollbackFrame;
      rollingback := false;
      return None;
    }
  }

  // ---------------------------------------------------------------------
  // What the operations promise.

  lemma InitialValid(checkDistance: int, inputSize: nat)
    ensures Valid(Initial(checkDistance, inputSize))
  {
  }

  /** `IncrementFrame` advances the counter by exactly one and clears the
      current input; while rolling back, or with verification off, the FIFO
      is untouched; otherwise exactly one entry is appended, holding the new
      frame number, the last input and the snapshot just saved. */
  lemma IncrementFrameEffect(b: Backend, snap: SavedFrame)
    ensures var b' := Incremented(b, snap);
      && b'.frame == b.frame + 1
      && b'.currentInput == Erased(b.currentInput)
      && b'.lastVerified == b.lastVerified && b'.rollingback == b.rollingback
      && (b.rollingback || b.checkDistance <= 0 ==> b'.savedFrames == b.savedFrames)
      && (!b.rollingback && b.checkDistance > 0 ==>
            b'.savedFrames == b.savedFrames + [SavedInfo(b.frame + 1, b.lastInput, snap.buf, snap.checksum)])
  {
  }

  /** Going forward (outside a rollback, where the frame is advanced by
      `StepRollback` instead) `IncrementFrame` preserves the invariant. */
  lemma IncrementFrameValid(b: Backend, snap: SavedFrame)
    requires Valid(b) && !b.rollingback
    ensures Valid(Incremented(b, snap))
  {
    var b' := Incremented(b, snap);
    if !b.rollingback && b.checkDistance > 0 {
      forall k | 0 <= k < |b'.savedFrames|
        ensures b'.savedFrames[k].frame == b.lastVerified + 1 + k
      {
        if k < |b.savedFrames| {
          assert b'.savedFrames[k] == b.savedFrames[k];
        }
      }
    }
  }

  /** `BeginRollback` returns 0 and changes nothing unless verification is on
      and the engine is exactly `checkDistance` frames ahead; then it rewinds
      to the last verified frame, enters rollback, remembers the frame it left
      and returns `checkDistance`. */
  lemma BeginRollbackEffect(b: Backend)
    ensures var b' := RolledBack(b).0; var n := RolledBack(b).1;
      && (!(0 < b.checkDistance && b.frame - b.lastVerified == b.checkDistance) ==> b' == b && n == 0)
      && (0 < b.checkDistance && b.frame - b.lastVerified == b.checkDistance ==>
            && n == b.checkDistance && b'.frame == b.lastVerified && b'.rollingback
            && b'.beginRollbackFrame == b.frame && b'.savedFrames == b.savedFrames)
  {
  }

  /** Outside a rollback, `BeginRollback` preserves the invariant. */
  lemma BeginRollbackValid(b: Backend)
    requires Valid(b) && !b.rollingback
    ensures Valid(RolledBack(b).0)
  {
  }

  /** On a valid backend, `StepRollback` never finds a frame-number mismatch:
      the FIFO is always consumed in the order it was produced. It preserves
      the invariant, and when rolling back it removes exactly the front entry. */
  lemma StepRollbackValid(b: Backend, snap: SavedFrame)
    requires Valid(b) && (b.rollingback ==> b.savedFrames != [])
    ensures var o := Stepped(b, snap);
      && Valid(o.after)
      && (o.error.Some? ==> !o.error.value.FrameMismatch?)
      && (b.rollingback ==> o.after.savedFrames == b.savedFrames[1..] && o.after.frame == b.frame + 1)
      && (!b.rollingback ==> o.after == b && o.error == Some(NotInRollback))
  {
    if b.rollingback {
      var o := Stepped(b, snap);
      assert b.savedFrames[0].frame == b.frame + 1;
      forall k | 0 <= k < |o.after.savedFrames|
        ensures o.after.savedFrames[k].frame == o.after.frame + 1 + k
      {
        assert o.after.savedFrames[k] == b.savedFrames[k + 1];
      }
    }
  }

  /** During a valid rollback, the FIFO is empty exactly when the counter is
      back at the frame the rollback began at: `StepRollback` can be called
      exactly while `EndRollback` would still fail, and `EndRollback`
      succeeds exactly once every recorded frame has been replayed. */
  lemma RollbackProgress(b: Backend)
    requires Valid(b) && b.rollingback
    ensures b.savedFrames != [] <==> b.frame < b.beginRollbackFrame
    ensures Ended(b).error == None <==> b.savedFrames == []
  {
  }

  /** `EndRollback` fails outside a rollback or before the counter is back at
      the frame the rollback began at; on success it verifies that frame and
      leaves rollback. It preserves the invariant. */
  lemma EndRollbackValid(b: Backend)
    requires Valid(b)
    ensures var o := Ended(b);
      && Valid(o.after)
      && (o.error == None <==> b.rollingback && b.frame == b.beginRollbackFrame)
      && (o.error == None ==> o.after.lastVerified == b.beginRollbackFrame && !o.after.rollingback)
      && (o.error != None ==> o.after == b)
  {
  }

  /** Apply `StepRollback` once per snapshot, stopping at the first error. */
  function Replay(b: Backend, snaps: seq<SavedFrame>): Outcome
    requires b.rollingback && |snaps| <= |b.savedFrames|
    decreases |snaps|
  {
    if snaps == [] then Outcome(b, None)
    else
      var o := Stepped(b, snaps[0]);
      if o.error.Some? then o
      else Replay(o.after, snaps[1..])
  }

  /** Index of the first replayed snapshot whose checksum differs from the
      recorded one, or |snaps| when all agree. */
  function FirstMismatch(snaps: seq<SavedFrame>, saved: seq<SavedInfo>): (j: nat)
    requires |snaps| <= |saved|
    ensures j <= |snaps|
    ensures forall k :: 0 <= k < j ==> snaps[k].checksum == saved[k].checksum
    ensures j < |snaps| ==> snaps[j].checksum != saved[j].checksum
    decreases |snaps|
  {
    if snaps == [] then 0
    else if snaps[0].checksum != saved[0].checksum then 0
    else 1 + FirstMismatch(snaps[1..], saved[1..])
  }

  /** Replaying from a valid rollback state reports a desync exactly at the
      first frame whose replayed checksum differs from the recorded one, with
      both checksums; when every checksum agrees it succeeds, having consumed
      one FIFO entry per replayed frame. */
  lemma {:induction false} ReplayVerdict(b: Backend, snaps: seq<SavedFrame>)
    requires Valid(b) && b.rollingback && |snaps| <= |b.savedFrames|
    ensures FirstMismatch(snaps, b.savedFrames) == |snaps| ==>
      && Replay(b, snaps).error == None
      && Replay(b, snaps).after == b.(frame := b.frame + |snaps|, savedFrames := b.savedFrames[|snaps|..],
                                     lastSaved := Replay(b, snaps).after.lastSaved,
                                     currentInput := Replay(b, snaps).after.currentInput)
      && (snaps != [] ==> Replay(b, snaps).after.currentInput == Erased(b.currentInput))
    ensures FirstMismatch(snaps, b.savedFrames) < |snaps| ==>
      var j := FirstMismatch(snaps, b.savedFrames);
      Replay(b, snaps).error == Some(ChecksumMismatch(b.frame + 1 + j, snaps[j].checksum, b.savedFrames[j].checksum))
    decreases |snaps|
  {
    if snaps != [] {
      var o := Stepped(b, snaps[0]);
      StepRollbackValid(b, snaps[0]);
      assert b.savedFrames[0].frame == b.frame + 1;
      if o.error == None {
        assert o.after.savedFrames == b.savedFrames[1..];
        ReplayVerdict(o.after, snaps[1..]);
        assert FirstMismatch(snaps, b.savedFrames) == 1 + FirstMismatch(snaps[1..], b.savedFrames[1..]);
        assert b.savedFrames[1..][|snaps| - 1..] == b.savedFrames[|snaps|..];
        var j := FirstMismatch(snaps, b.savedFrames);
        if j < |snaps| {
          assert snaps[1..][j - 1] == snaps[j];
          assert b.savedFrames[1..][j - 1] == b.savedFrames[j];
        }
      }
    }
  }

  /** One verification cycle as the host drives it: `BeginRollback`; when it
      asks for frames, one `StepRollback` per replayed snapshot, then
      `EndRollback`; the first error stops the cycle. */
  ghost function Cycle(b: Backend, snaps: seq<SavedFrame>): Outcome
    requires Valid(b) && !b.rollingback
    requires |snaps| == RolledBack(b).1
  {
    var b1 := RolledBack(b).0;
    if RolledBack(b).1 == 0 then Outcome(b1, None)
    else
      BeginRollbackValid(b);
      var o := Replay(b1, snaps);
      if o.error.Some? then o else Ended(o.after)
  }

  /** A whole verification cycle from a valid state exactly `checkDistance`
      frames ahead: if the replay reproduces every recorded checksum, the
      cycle succeeds, the frame it began at becomes the last verified frame,
      the FIFO is empty and the counter is back where it was; otherwise it
      reports the first frame whose checksum differs. */
  lemma VerificationCycle(b: Backend, snaps: seq<SavedFrame>)
    requires Valid(b) && !b.rollingback
    requires 0 < b.checkDistance && b.frame - b.lastVerified == b.checkDistance
    requires |snaps| == b.checkDistance
    ensures RolledBack(b).1 == |snaps|
    ensures var c := Cycle(b, snaps);
      var j := FirstMismatch(snaps, b.savedFrames);
      && (j == |snaps| ==>
            && c.error == None && Valid(c.after)
            && c.after == b.(lastSaved := c.after.lastSaved, currentInput := Erased(b.currentInput),
                             savedFrames := [], lastVerified := b.frame, beginRollbackFrame := b.frame))
      && (j < |snaps| ==>
            c.error == Some(ChecksumMismatch(b.lastVerified + 1 + j, snaps[j].checksum, b.savedFrames[j].checksum)))
  {
    var b1 := RolledBack(b).0;
    BeginRollbackValid(b);
    ReplayVerdict(b1, snaps);
    assert b1.savedFrames == b.savedFrames;
  }

  /** The last verified frame never moves backwards. */
  lemma LastVerifiedMonotone(b: Backend, snap: SavedFrame)
    requires Valid(b) && 0 <= b.checkDistance
    ensures Incremented(b, snap).lastVerified == b.lastVerified
    ensures RolledBack(b).0.lastVerified == b.lastVerified
    ensures b.rollingback ==> b.savedFrames != [] ==> Stepped(b, snap).after.lastVerified == b.lastVerified
    ensures Ended(b).after.lastVerified >= b.lastVerified
  {
  }

  /** Bounded lag: if the host asks for a rollback before every forward frame
      (as gdxsv does), a frame that does not trigger one keeps the engine at
      most `checkDistance` frames ahead of the last verified frame. */
  lemma BoundedLag(b: Backend, snap: SavedFrame)
    requires Valid(b) && !b.rollingback && 0 < b.checkDistance
    requires b.frame - b.lastVerified <= b.checkDistance
    requires RolledBack(b).1 == 0
    ensures var b' := Incremented(b, snap);
      Valid(b') && b'.frame - b'.lastVerified <= b.checkDistance
  {
    IncrementFrameValid(b, snap);
  }
}
