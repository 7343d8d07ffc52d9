/**
 * The editor state of the camera animation tool (UCammieContext): eight
 * keyframe tracks, the playhead, the play and jump flags, and the logic that
 * selects the keyframes around the playhead, captures the camera position as
 * a keyframe, steps playback, filters timeline deletions and loads a camera
 * file. Camera coordinates and the frame number as a float are opaque 32-bit
 * words supplied by the caller.
 */
module CammieContext {
  import opened Bits
  import opened Wrappers
  import opened BStream
  import opened FrameMap
  import opened KeyframeIO

  // ---------------------------------------------------------------------
  // Keyframe selection around the playhead
  // ---------------------------------------------------------------------

  /**
   * `mFrames[key]` on a copy of the track: the keyframe stored under the
   * key converted to uint32_t, or a zero keyframe when there is none.
   */
  function FrameAt(frames: seq<Entry<Keyframe>>, key: i32): (k: Keyframe)
    ensures ToU32(key) in KeySet(frames) ==> Lookup(frames, ToU32(key)) == Some(k)
    ensures ToU32(key) !in KeySet(frames) ==> k == Keyframe(0, 0, 0, 0)
  {
    match Lookup(frames, ToU32(key))
    case Some(kf) => kf
    case None => Keyframe(0, 0, 0, 0)
  }

  /** The index of the first listed key greater than `currentFrame`, or the length. */
  function FirstGreater(keys: seq<i32>, currentFrame: int): (n: nat)
    ensures n <= |keys|
    ensures forall j :: 0 <= j < n ==> keys[j] <= currentFrame
    ensures n < |keys| ==> currentFrame < keys[n]
  {
    if keys == [] || currentFrame < keys[0] then 0
    else 1 + FirstGreater(keys[1..], currentFrame)
  }

  /** The first key after the playhead is at `i` when every key before `i` is not after it. */
  lemma {:induction false} FirstGreaterAt(keys: seq<i32>, currentFrame: int, i: nat)
    requires i <= |keys|
    requires forall j :: 0 <= j < i ==> keys[j] <= currentFrame
    requires i < |keys| ==> currentFrame < keys[i]
    ensures FirstGreater(keys, currentFrame) == i
  {
    if i > 0 {
      FirstGreaterAt(keys[1..], currentFrame, i - 1);
    }
  }

  /**
   * The scan of UpdateCameraAnimationTrack: every key not after the playhead
   * replaces `prev`, and the first key after it sets `next` and stops the
   * scan. A local that is never assigned is None.
   */
  method SelectKeyframes(keys: seq<i32>, frames: seq<Entry<Keyframe>>, currentFrame: i32)
    returns (prev: Option<Keyframe>, next: Option<Keyframe>)
    ensures var n := FirstGreater(keys, currentFrame);
            && prev == (if n > 0 then Some(FrameAt(frames, keys[n - 1])) else None)
            && next == (if n < |keys| then Some(FrameAt(frames, keys[n])) else None)
  {
    prev, next := None, None;
    var i := 0;
    while i < |keys|
      invariant i <= |keys|
      invariant forall j :: 0 <= j < i ==> keys[j] <= currentFrame
      invariant prev == if i > 0 then Some(FrameAt(frames, keys[i - 1])) else None
      invariant next == None
    {
      var keyframe := keys[i];
      if currentFrame >= keyframe {
        prev := Some(FrameAt(frames, keyframe));
      }
      if currentFrame < keyframe {
        next := Some(FrameAt(frames, keyframe));
        break;
      }
      i := i + 1;
    }
    FirstGreaterAt(keys, currentFrame, i);
  }

  predicate Ascending(keys: seq<i32>)
  {
    forall i, j :: 0 <= i < j < |keys| ==> keys[i] <= keys[j]
  }

  /**
   * With the keys in ascending order the scan stops at the smallest key after
   * the playhead, and the key just before it is the greatest key not after
   * the playhead; each exists exactly when some key lies on that side.
   */
  lemma SelectionBracketsPlayhead(keys: seq<i32>, currentFrame: int)
    requires Ascending(keys)
    ensures var n := FirstGreater(keys, currentFrame);
            && (n > 0 <==> exists j :: 0 <= j < |keys| && keys[j] <= currentFrame)
            && (n > 0 ==> keys[n - 1] <= currentFrame
                          && forall j :: 0 <= j < |keys| && keys[j] <= currentFrame ==> keys[j] <= keys[n - 1])
            && (n < |keys| <==> exists j :: 0 <= j < |keys| && currentFrame < keys[j])
            && (n < |keys| ==> currentFrame < keys[n]
                               && forall j :: 0 <= j < |keys| && currentFrame < keys[j] ==> keys[n] <= keys[j])
  {
    var n := FirstGreater(keys, currentFrame);
    if n > 0 {
      forall j | 0 <= j < |keys| && keys[j] <= currentFrame
        ensures keys[j] <= keys[n - 1]
      {
      }
    }
    if n < |keys| {
      forall j | 0 <= j < |keys| && currentFrame < keys[j]
        ensures keys[n] <= keys[j]
      {
      }
    }
  }

  /** Without ascending keys the scan can stop early: keys 5, 1 at frame 3 give no prev although 1 <= 3. */
  lemma UnsortedKeysMissPrev()
    ensures FirstGreater([5, 1], 3) == 0
  {
    assert FirstGreater([5, 1], 3) == 0;
  }

  // ---------------------------------------------------------------------
  // Keyframe capture (Space key)
  // ---------------------------------------------------------------------

  /** The key list after a capture: the frame is appended unless it is already listed. */
  function CapturedKeys(keys: seq<i32>, frame: i32): (r: seq<i32>)
    ensures frame in r
    ensures |r| == if frame in keys then |keys| else |keys| + 1
  {
    if frame in keys then keys else keys + [frame]
  }

  /**
   * The map after a capture: a new frame is inserted as
   * `{frame, insertValue, 0, 0}`, a listed frame has only its value replaced
   * by `assignValue`.
   */
  function CapturedFrames(keys: seq<i32>, frames: seq<Entry<Keyframe>>, frame: i32, frameBits: bv32,
                          insertValue: bv32, assignValue: bv32): (r: seq<Entry<Keyframe>>)
    requires Sorted(frames)
    requires frame in keys ==> ToU32(frame) in KeySet(frames)
    ensures Sorted(r)
  {
    var k := ToU32(frame);
    if frame !in keys then Insert(frames, k, Keyframe(frameBits, insertValue, 0, 0))
    else Assign(frames, k, Lookup(frames, k).value.(value := assignValue))
  }

  predicate NoDuplicates(keys: seq<i32>)
  {
    forall i, j :: 0 <= i < j < |keys| ==> keys[i] != keys[j]
  }

  /** A capture lists the frame and adds no duplicate key. */
  lemma CaptureAddsNoDuplicate(keys: seq<i32>, frame: i32)
    requires NoDuplicates(keys)
    ensures NoDuplicates(CapturedKeys(keys, frame))
    ensures forall x :: x in CapturedKeys(keys, frame) <==> x in keys || x == frame
  {
    if frame !in keys {
      var r := keys + [frame];
      forall i, j | 0 <= i < j < |r| ensures r[i] != r[j] {
        if j == |keys| {
          assert r[i] == keys[i];
        }
      }
    }
  }

  /**
   * The key is appended, not inserted in order: ascending keys stay ascending
   * exactly when the frame is already listed, the list is empty, or the frame
   * is after the last key.
   */
  lemma CaptureOrder(keys: seq<i32>, frame: i32)
    requires StrictlyAscending(keys)
    ensures StrictlyAscending(CapturedKeys(keys, frame))
            <==> frame in keys || keys == [] || keys[|keys| - 1] < frame
  {
    var r := CapturedKeys(keys, frame);
    if frame !in keys && keys != [] {
      if keys[|keys| - 1] < frame {
        forall i, j | 0 <= i < j < |r| ensures r[i] < r[j] {
          if j == |keys| {
            assert r[i] == keys[i] <= keys[|keys| - 1];
          }
        }
      } else {
        assert r[|keys| - 1] == keys[|keys| - 1];
        assert r[|keys|] == frame;
        assert frame != keys[|keys| - 1];
      }
    }
  }

  /** Capturing at frame 0 after key 5 leaves the keys 5, 0 out of order. */
  lemma CaptureBreaksOrder()
    ensures CapturedKeys([5], 0) == [5, 0]
    ensures !StrictlyAscending(CapturedKeys([5], 0))
  {
    assert 0 !in [5];
    assert CapturedKeys([5], 0)[0] == 5;
  }

  /** A frame that is not listed is not a key of the map. */
  lemma UnlistedNotKey(keys: seq<i32>, frames: seq<Entry<Keyframe>>, frame: i32)
    requires InStep(keys, frames) && frame !in keys
    ensures ToU32(frame) !in KeySet(frames)
  {
    forall i | 0 <= i < |frames| ensures frames[i].key != ToU32(frame) {
      assert ToI32(frames[i].key) in keys;
    }
  }

  /** A capture adds the frame's key to the map's keys and nothing else. */
  lemma CapturedKeySet(keys: seq<i32>, frames: seq<Entry<Keyframe>>, frame: i32, frameBits: bv32,
                       insertValue: bv32, assignValue: bv32)
    requires Sorted(frames)
    requires frame in keys ==> ToU32(frame) in KeySet(frames)
    ensures KeySet(CapturedFrames(keys, frames, frame, frameBits, insertValue, assignValue))
            == KeySet(frames) + {ToU32(frame)}
  {
    if frame !in keys {
      InsertKeys(frames, ToU32(frame), Keyframe(frameBits, insertValue, 0, 0));
    }
  }

  /**
   * After a capture the frame's key holds the new keyframe (inserted) or the
   * old keyframe with the new value (listed), and every other key is unchanged.
   */
  lemma CaptureLookup(keys: seq<i32>, frames: seq<Entry<Keyframe>>, frame: i32, frameBits: bv32,
                      insertValue: bv32, assignValue: bv32, j: int)
    requires InStep(keys, frames)
    ensures var r := CapturedFrames(keys, frames, frame, frameBits, insertValue, assignValue);
            Lookup(r, j) == if j != ToU32(frame) then Lookup(frames, j)
                            else if frame in keys then Some(Lookup(frames, j).value.(value := assignValue))
                            else Some(Keyframe(frameBits, insertValue, 0, 0))
  {
    var k := ToU32(frame);
    if frame !in keys {
      UnlistedNotKey(keys, frames, frame);
      InsertLookup(frames, k, Keyframe(frameBits, insertValue, 0, 0), j);
    } else {
      AssignLookup(frames, k, Lookup(frames, k).value.(value := assignValue), j);
    }
  }

  /** A capture keeps the key list and the map in step. */
  lemma CaptureKeepsInStep(keys: seq<i32>, frames: seq<Entry<Keyframe>>, frame: i32, frameBits: bv32,
                           insertValue: bv32, assignValue: bv32)
    requires InStep(keys, frames)
    ensures InStep(CapturedKeys(keys, frame), CapturedFrames(keys, frames, frame, frameBits, insertValue, assignValue))
  {
    var k := ToU32(frame);
    var keys' := CapturedKeys(keys, frame);
    var frames' := CapturedFrames(keys, frames, frame, frameBits, insertValue, assignValue);
    CapturedKeySet(keys, frames, frame, frameBits, insertValue, assignValue);
    forall i | 0 <= i < |keys'| ensures ToU32(keys'[i]) in KeySet(frames') {
      if i < |keys| {
        assert keys'[i] == keys[i];
      }
    }
    forall i | 0 <= i < |frames'| ensures ToI32(frames'[i].key) in keys' {
      assert frames'[i].key in KeySet(frames');
      if frames'[i].key != k {
        var m :| 0 <= m < |frames| && frames[m].key == frames'[i].key;
        assert ToI32(frames[m].key) in keys;
      }
    }
  }

  /** The Space-key capture on one track (one block of Update). */
  method Capture(track: Track, frame: i32, frameBits: bv32, insertValue: bv32, assignValue: bv32)
    requires track.Valid()
    modifies track
    ensures track.Valid()
    ensures track.trackType == old(track.trackType)
    ensures track.keys == CapturedKeys(old(track.keys), frame)
    ensures track.frames
            == CapturedFrames(old(track.keys), old(track.frames), frame, frameBits, insertValue, assignValue)
  {
    CaptureKeepsInStep(track.keys, track.frames, frame, frameBits, insertValue, assignValue);
    if !(frame in track.keys) {
      track.keys := track.keys + [frame];
      track.frames := Insert(track.frames, ToU32(frame), Keyframe(frameBits, insertValue, 0, 0));
    } else {
      var k := ToU32(frame);
      var kf := Lookup(track.frames, k).value;
      track.frames := Assign(track.frames, k, kf.(value := assignValue));
    }
  }

  // ---------------------------------------------------------------------
  // Playback
  // ---------------------------------------------------------------------

  /** The playhead state Render works on: current and end frame, playing, jump requested. */
  datatype Playhead = Playhead(current: i32, end: i32, playing: bool, jump: bool)

  /** The step moves the camera: playing short of the end, or a jump was requested. */
  predicate Moves(p: Playhead)
  {
    (p.playing && p.current != p.end) || p.jump
  }

  /** `mCurrentFrame++` on an int does not overflow. */
  predicate StepDefined(p: Playhead)
  {
    Moves(p) && !p.jump ==> p.current < MaxI32
  }

  /**
   * The end of Render: a moving step advances the frame by one unless it was
   * a jump, and clears the jump; otherwise playback that stands at the end
   * stops.
   */
  function Step(p: Playhead): (q: Playhead)
    requires StepDefined(p)
    ensures q.end == p.end && !q.jump
    ensures p.current <= p.end ==> q.current <= q.end
  {
    if (p.playing && p.current != p.end) || p.jump then
      p.(current := if p.jump then p.current else p.current + 1, jump := false)
    else if p.playing && p.current == p.end then
      p.(playing := false)
    else
      p
  }

  /** `n` consecutive steps from a playhead not past the end. */
  function Run(p: Playhead, n: nat): (q: Playhead)
    requires p.current <= p.end
    ensures q.current <= q.end
    decreases n
  {
    if n == 0 then p else Run(Step(p), n - 1)
  }

  /**
   * Playback from a frame not past the end advances one frame per step,
   * reaches the end frame still playing after `end - current` steps, and the
   * next step stops it there.
   */
  lemma {:induction false} PlaybackReachesEnd(p: Playhead)
    requires p.playing && !p.jump && p.current <= p.end
    ensures Run(p, p.end - p.current) == p.(current := p.end)
    ensures Step(p.(current := p.end)) == p.(current := p.end, playing := false)
    decreases p.end - p.current
  {
    if p.current < p.end {
      PlaybackReachesEnd(p.(current := p.current + 1));
    }
  }

  /** A jump keeps the frame it set and clears itself, playing or not. */
  lemma JumpHoldsFrame(p: Playhead)
    requires p.jump
    ensures Step(p) == p.(jump := false)
  {
  }

  /** Playing from past the end never stops: each step moves one frame further. */
  lemma PastEndKeepsPlaying(p: Playhead)
    requires p.playing && !p.jump && p.end < p.current < MaxI32
    ensures Step(p) == p.(current := p.current + 1)
    ensures Step(p).playing && Step(p).end < Step(p).current
  {
  }

  /** Stopped and without a jump, the step changes nothing. */
  lemma IdleIsFixed(p: Playhead)
    requires !p.playing && !p.jump
    ensures Step(p) == p
  {
  }

  // ---------------------------------------------------------------------
  // Timeline deletion
  // ---------------------------------------------------------------------

  /** The selected frames that are positive, in order, as uint32_t. */
  function PositiveFrames(s: seq<i32>): (r: seq<u32>)
    ensures forall i :: 0 <= i < |r| ==> r[i] > 0
    ensures |r| <= |s|
  {
    if s == [] then []
    else if s[|s| - 1] <= 0 then PositiveFrames(s[..|s| - 1])
    else PositiveFrames(s[..|s| - 1]) + [s[|s| - 1] as u32]
  }

  /** Exactly the positive selected frames are passed on. */
  lemma {:induction false} PositiveFramesMembers(s: seq<i32>, x: int)
    ensures x in PositiveFrames(s) <==> x in s && x > 0
  {
    if s != [] {
      var init := s[..|s| - 1];
      PositiveFramesMembers(init, x);
      assert s == init + [s[|s| - 1]];
    }
  }

  /**
   * The deletion loop of RenderTimelineTrack: every selected frame index
   * that is positive is passed to DeleteKeyframe, in selection order; the
   * result is the sequence of those arguments.
   */
  method DeletionTargets(toRemove: array<i32>) returns (deleted: seq<u32>)
    ensures deleted == PositiveFrames(toRemove[..])
  {
    deleted := [];
    for i := 0 to toRemove.Length
      invariant deleted == PositiveFrames(toRemove[..i])
    {
      assert toRemove[..i + 1][..i] == toRemove[..i];
      if toRemove[i] <= 0 {
        continue;
      }
      deleted := deleted + [toRemove[i] as u32];
    }
    assert toRemove[..toRemove.Length] == toRemove[..];
  }

  // ---------------------------------------------------------------------
  // Loading a camera file
  // ---------------------------------------------------------------------

  /** The four-character tag "CANM". */
  const CanmTag: seq<bv8> := [0x43, 0x41, 0x4E, 0x4D]

  /** Offset of the end frame; the track block size follows it. */
  const EndFrameOffset: nat := 0x18
  /** The first track header, just after the file header. */
  const TrackHeadersOffset: nat := 0x20

  /** CANM when the tag at bytes 4..8 is "CANM", CKAN for any other tag. */
  function FileType(bytes: seq<bv8>): TrackType
    requires |bytes| >= 8
  {
    if bytes[4..8] == CanmTag then CANM else CKAN
  }

  /** The shared sample region: 0x20 plus the track block size, in 32 bits. */
  function SampleRegion(trackSize: bv32): u32
  {
    Wrap32(TrackHeadersOffset + trackSize as int)
  }

  /** The sample region of a file, whose track block size follows the end frame. */
  function DataOffset(bytes: seq<bv8>): u32
    requires |bytes| >= TrackHeadersOffset
  {
    SampleRegion(WordAt(bytes, EndFrameOffset + 4))
  }

  /** A word read as `int32_t`. */
  function SignedWord(w: bv32): i32
  {
    ToI32(w as int)
  }

  /**
   * Where the `i`-th track header starts: the headers follow one another from
   * 0x20, 12 bytes each for CKAN and 8 for CANM.
   */
  function HeaderOffset(i: nat, t: TrackType): nat
  {
    TrackHeadersOffset + (if t == CKAN then 12 * i else 8 * i)
  }

  /** The `i`-th track header of the file, and the samples it points to, lie inside the file. */
  predicate HeaderReadable(bytes: seq<bv8>, i: nat)
    requires |bytes| >= TrackHeadersOffset
  {
    TrackReadable(bytes, HeaderOffset(i, FileType(bytes)), DataOffset(bytes), FileType(bytes))
  }

  /** All eight track headers, and the samples they point to, lie inside the file. */
  predicate FileReadable(bytes: seq<bv8>)
  {
    && |bytes| >= TrackHeadersOffset
    && forall i :: 0 <= i < 8 ==> HeaderReadable(bytes, i)
  }

  /** The map the `i`-th track of the file loads into an empty track. */
  function FileFrames(bytes: seq<bv8>, i: nat, frameKey: bv32 -> u32): seq<Entry<Keyframe>>
    requires |bytes| >= TrackHeadersOffset && HeaderReadable(bytes, i)
  {
    var t := FileType(bytes);
    var h := DecodeTrackHeader(bytes, HeaderOffset(i, t), t);
    InsertAll([], DecodeSamples(bytes, SampleStart(DataOffset(bytes), h.beginIndex), h.keyCount, t, h.slopeFlags),
              frameKey)
  }

  /** A track of type `t` with `keys` and `frames` holds the `i`-th track of the file, its keys listed in map order. */
  predicate LoadedTrack(t: TrackType, keys: seq<i32>, frames: seq<Entry<Keyframe>>, bytes: seq<bv8>, i: nat,
                        frameKey: bv32 -> u32)
    requires |bytes| >= TrackHeadersOffset && HeaderReadable(bytes, i)
  {
    && t == FileType(bytes)
    && frames == FileFrames(bytes, i, frameKey)
    && keys == SignedKeys(frames)
  }

  /** `mKeys.clear()` and `mFrames.clear()`. */
  method Clear(track: Track)
    modifies track
    ensures track.keys == [] && track.frames == []
    ensures track.trackType == old(track.trackType)
  {
    track.keys := [];
    track.frames := [];
  }

  // ---------------------------------------------------------------------
  // The editor state
  // ---------------------------------------------------------------------

  class Context {
    const xPosition: Track
    const yPosition: Track
    const zPosition: Track
    const xTarget: Track
    const yTarget: Track
    const zTarget: Track
    const twist: Track
    const fovY: Track

    var currentFrame: i32
    var startFrame: i32
    var endFrame: i32
    var playing: bool
    var updateCameraPosition: bool

    /** The tracks in declaration order, which is also the order of a camera file. */
    function Tracks(): seq<Track>
    {
      [xPosition, yPosition, zPosition, xTarget, yTarget, zTarget, twist, fovY]
    }

    /** The eight tracks are distinct objects. */
    predicate Separate()
    {
      && xPosition != yPosition && xPosition != zPosition && xPosition != xTarget && xPosition != yTarget
      && xPosition != zTarget && xPosition != twist && xPosition != fovY
      && yPosition != zPosition && yPosition != xTarget && yPosition != yTarget && yPosition != zTarget
      && yPosition != twist && yPosition != fovY
      && zPosition != xTarget && zPosition != yTarget && zPosition != zTarget && zPosition != twist
      && zPosition != fovY
      && xTarget != yTarget && xTarget != zTarget && xTarget != twist && xTarget != fovY
      && yTarget != zTarget && yTarget != twist && yTarget != fovY
      && zTarget != twist && zTarget != fovY
      && twist != fovY
    }

    /** The tracks are distinct, each with its key list and map in step. */
    ghost predicate Valid()
      reads this, xPosition, yPosition, zPosition, xTarget, yTarget, zTarget, twist, fovY
    {
      && Separate()
      && xPosition.Valid() && yPosition.Valid() && zPosition.Valid()
      && xTarget.Valid() && yTarget.Valid() && zTarget.Valid()
      && twist.Valid() && fovY.Valid()
    }

    function Head(): Playhead
      reads this
    {
      Playhead(currentFrame, endFrame, playing, updateCameraPosition)
    }

    /** Eight empty tracks, the playhead at 0 of 10, stopped. */
    constructor ()
      ensures Valid()
      ensures forall i :: 0 <= i < 8 ==> Tracks()[i].keys == [] && Tracks()[i].frames == []
      ensures currentFrame == 0 && startFrame == 0 && endFrame == 10
      ensures !playing && !updateCameraPosition
    {
      xPosition := new Track();
      yPosition := new Track();
      zPosition := new Track();
      xTarget := new Track();
      yTarget := new Track();
      zTarget := new Track();
      twist := new Track();
      fovY := new Track();
      currentFrame, startFrame := 0, 0;
      endFrame := 10;
      playing, updateCameraPosition := false, false;
    }

    /**
     * The Space key: captures the camera position at the current frame into
     * the three position tracks. The Z track inserts `z` for a new frame but
     * stores `x` for a listed one.
     */
    method CaptureKeyframe(x: bv32, y: bv32, z: bv32, frameBits: bv32)
      requires Separate() && xPosition.Valid() && yPosition.Valid() && zPosition.Valid()
      modifies xPosition, yPosition, zPosition
      ensures xPosition.Valid() && yPosition.Valid() && zPosition.Valid()
      ensures xPosition.keys == CapturedKeys(old(xPosition.keys), currentFrame)
      ensures xPosition.frames
              == CapturedFrames(old(xPosition.keys), old(xPosition.frames), currentFrame, frameBits, x, x)
      ensures yPosition.keys == CapturedKeys(old(yPosition.keys), currentFrame)
      ensures yPosition.frames
              == CapturedFrames(old(yPosition.keys), old(yPosition.frames), currentFrame, frameBits, y, y)
      ensures zPosition.keys == CapturedKeys(old(zPosition.keys), currentFrame)
      ensures zPosition.frames
              == CapturedFrames(old(zPosition.keys), old(zPosition.frames), currentFrame, frameBits, z, x)
      ensures xPosition.trackType == old(xPosition.trackType) && yPosition.trackType == old(yPosition.trackType)
      ensures zPosition.trackType == old(zPosition.trackType)
    {
      Capture(xPosition, currentFrame, frameBits, x, x);
      Capture(yPosition, currentFrame, frameBits, y, y);
      Capture(zPosition, currentFrame, frameBits, z, x);
    }

    /** The "Play" button: playback restarts from frame 0. */
    method Play()
      modifies this`playing, this`currentFrame
      ensures playing && currentFrame == 0
    {
      playing := true;
      currentFrame := 0;
    }

    /** The "Stop" button. */
    method Stop()
      modifies this`playing
      ensures !playing
    {
      playing := false;
    }

    /**
     * "Set Camera to Keyframe": offered only when a key is selected, a track
     * is selected and the key is in that track's map; it moves the playhead to
     * the key and requests a jump.
     */
    method SetCameraToKeyframe(selectedKeyframe: i32, selectedTrack: Track?) returns (jumped: bool)
      modifies this`currentFrame, this`updateCameraPosition
      ensures jumped <==> selectedKeyframe != -1 && selectedTrack != null
                          && ToU32(selectedKeyframe) in KeySet(selectedTrack.frames)
      ensures jumped ==> currentFrame == selectedKeyframe && updateCameraPosition
      ensures !jumped ==> currentFrame == old(currentFrame) && updateCameraPosition == old(updateCameraPosition)
    {
      jumped := false;
      if selectedKeyframe != -1 && selectedTrack != null
         && Lookup(selectedTrack.frames, ToU32(selectedKeyframe)).Some? {
        updateCameraPosition := true;
        currentFrame := selectedKeyframe;
        jumped := true;
      }
    }

    /** The playback step at the end of Render. */
    method PlaybackStep()
      requires StepDefined(Head())
      modifies this`currentFrame, this`playing, this`updateCameraPosition
      ensures Head() == Step(old(Head()))
    {
      if (playing && currentFrame != endFrame) || updateCameraPosition {
        if !updateCameraPosition {
          currentFrame := currentFrame + 1;
        }
        updateCameraPosition := false;
      } else if playing && currentFrame == endFrame {
        playing := false;
      }
    }

    /**
     * LoadFromPath on the file's bytes: empties all eight tracks, reads the
     * tag, the end frame and the track block size from the file header, then
     * loads the tracks in file order (X, Y, Z position, X, Y, Z target, Twist,
     * FovY) from consecutive headers starting at 0x20, all with the sample
     * region at 0x20 plus the block size.
     */
    method LoadFromPath(bytes: seq<bv8>, frameKey: bv32 -> u32)
      requires Separate() && FileReadable(bytes)
      modifies this`endFrame, xPosition, yPosition, zPosition, xTarget, yTarget, zTarget, twist, fovY
      ensures Valid()
      ensures endFrame == SignedWord(WordAt(bytes, EndFrameOffset))
      ensures forall i | 0 <= i < 8 ::
                LoadedTrack(Tracks()[i].trackType, Tracks()[i].keys, Tracks()[i].frames, bytes, i, frameKey)
    {
      ClearAll();

      var camn := new Stream(bytes, 0);
      var end, t, keyframeDataOffset := ReadFileHeader(camn);
      endFrame := end;

      TracksDistinct();
      LoadTracks(Tracks(), camn, bytes, t, keyframeDataOffset, frameKey);
      ValidFromTracks();
    }

    /** Valid() holds when the tracks are distinct and each is valid. */
    lemma ValidFromTracks()
      requires Separate()
      requires forall i | 0 <= i < 8 :: Tracks()[i].Valid()
      ensures Valid()
    {
      assert xPosition == Tracks()[0] && yPosition == Tracks()[1] && zPosition == Tracks()[2];
      assert xTarget == Tracks()[3] && yTarget == Tracks()[4] && zTarget == Tracks()[5];
      assert twist == Tracks()[6] && fovY == Tracks()[7];
    }

    /**
     * The header walk of LoadFromPath: loads eight distinct, empty tracks from
     * the consecutive headers that start at 0x20.
     */
    static method LoadTracks(tracks: seq<Track>, camn: Stream, ghost bytes: seq<bv8>, t: TrackType,
                             keyframeDataOffset: u32, frameKey: bv32 -> u32)
      requires |tracks| == 8
      requires forall i, j | 0 <= i < 8 && 0 <= j < 8 && i != j :: tracks[i] != tracks[j]
      requires camn.buffer == bytes && FileReadable(bytes)
      requires t == FileType(bytes) && keyframeDataOffset == DataOffset(bytes)
      requires camn.position == TrackHeadersOffset
      requires forall i | 0 <= i < 8 :: tracks[i].keys == [] && tracks[i].frames == []
      modifies tracks, camn
      ensures forall i | 0 <= i < 8 ::
                LoadedTrack(tracks[i].trackType, tracks[i].keys, tracks[i].frames, bytes, i, frameKey)
      ensures forall i | 0 <= i < 8 :: tracks[i].Valid()
    {
      for i := 0 to 8
        invariant camn.position == HeaderOffset(i, t)
        invariant forall j | 0 <= j < i ::
                    LoadedTrack(tracks[j].trackType, tracks[j].keys, tracks[j].frames, bytes, j, frameKey)
        invariant forall j | 0 <= j < i :: tracks[j].Valid()
        invariant forall j | i <= j < 8 :: tracks[j].keys == [] && tracks[j].frames == []
      {
        LoadNext(tracks[i], camn, i, t, keyframeDataOffset, frameKey);
      }
    }

    /** Distinct tracks sit at distinct places of Tracks(). */
    lemma TracksDistinct()
      requires Separate()
      ensures forall i, j | 0 <= i < 8 && 0 <= j < 8 && i != j :: Tracks()[i] != Tracks()[j]
    {
    }

    /** Empties the key list and the map of all eight tracks. */
    method ClearAll()
      requires Separate()
      modifies xPosition, yPosition, zPosition, xTarget, yTarget, zTarget, twist, fovY
      ensures xPosition.keys == [] && xPosition.frames == [] && yPosition.keys == [] && yPosition.frames == []
      ensures zPosition.keys == [] && zPosition.frames == [] && xTarget.keys == [] && xTarget.frames == []
      ensures yTarget.keys == [] && yTarget.frames == [] && zTarget.keys == [] && zTarget.frames == []
      ensures twist.keys == [] && twist.frames == [] && fovY.keys == [] && fovY.frames == []
      ensures xPosition.trackType == old(xPosition.trackType) && yPosition.trackType == old(yPosition.trackType)
      ensures zPosition.trackType == old(zPosition.trackType) && xTarget.trackType == old(xTarget.trackType)
      ensures yTarget.trackType == old(yTarget.trackType) && zTarget.trackType == old(zTarget.trackType)
      ensures twist.trackType == old(twist.trackType) && fovY.trackType == old(fovY.trackType)
    {
      Clear(xPosition);
      Clear(yPosition);
      Clear(zPosition);
      Clear(xTarget);
      Clear(yTarget);
      Clear(zTarget);
      Clear(fovY);
      Clear(twist);
    }

    /**
     * Skips the magic, reads the tag, then the end frame and the track block
     * size at 0x18, leaving the stream at the first track header.
     */
    static method ReadFileHeader(camn: Stream) returns (endFrame: i32, t: TrackType, keyframeDataOffset: u32)
      requires camn.position == 0 && |camn.buffer| >= TrackHeadersOffset
      modifies camn
      ensures camn.position == TrackHeadersOffset
      ensures endFrame == SignedWord(WordAt(camn.buffer, EndFrameOffset))
      ensures t == FileType(camn.buffer) && keyframeDataOffset == DataOffset(camn.buffer)
    {
      var _ := camn.ReadBytes(4);
      var tag := camn.ReadBytes(4);
      camn.Seek(EndFrameOffset);
      var w := camn.ReadWord();
      endFrame := SignedWord(w);
      var trackSize := camn.ReadWord();
      keyframeDataOffset := SampleRegion(trackSize);
      t := if tag == CanmTag then CANM else CKAN;
    }

    /** Loads the `i`-th track of the file into an emptied track. */
    static method LoadNext(track: Track, camn: Stream, i: nat, t: TrackType, keyframeDataOffset: u32,
                           frameKey: bv32 -> u32)
      requires |camn.buffer| >= TrackHeadersOffset && HeaderReadable(camn.buffer, i)
      requires t == FileType(camn.buffer) && keyframeDataOffset == DataOffset(camn.buffer)
      requires camn.position == HeaderOffset(i, t)
      requires track.keys == [] && track.frames == []
      modifies track, camn
      ensures camn.position == HeaderOffset(i + 1, t)
      ensures LoadedTrack(track.trackType, track.keys, track.frames, camn.buffer, i, frameKey)
      ensures track.Valid()
    {
      assert track.Valid();
      ghost var h := DecodeTrackHeader(camn.buffer, camn.position, t);
      ghost var samples := DecodeSamples(camn.buffer, SampleStart(keyframeDataOffset, h.beginIndex), h.keyCount,
                                         t, h.slopeFlags);
      assert FileFrames(camn.buffer, i, frameKey) == InsertAll([], samples, frameKey);
      track.LoadTrack(camn, keyframeDataOffset, t, frameKey);
      assert track.frames == InsertAll([], samples, frameKey);
    }
  }
}
