/**
 * Camera keyframe tracks (CTrackCommon). A track's block in a camera file is a
 * header of 32-bit words (key count, first sample index and, in the CKAN
 * format, slope flags) pointing into a sample region shared by all tracks.
 * Samples are words: frame, value and, in CKAN, the in and out slopes. Floats
 * are opaque words here; the conversion of a frame to its integer map key is
 * the parameter `frameKey`.
 */
module KeyframeIO {
  import opened Bits
  import opened Wrappers
  import opened BStream
  import opened FrameMap

  datatype TrackType = CKAN | CANM

  /** One sample. Slopes the format does not store are 0. */
  datatype Keyframe = Keyframe(frame: bv32, value: bv32, inslope: bv32, outslope: bv32)

  datatype TrackHeader = TrackHeader(keyCount: u16, beginIndex: u16, slopeFlags: u16)

  /** Header bytes: two 32-bit words for CANM, three for CKAN. */
  function HeaderBytes(t: TrackType): nat
  {
    if t == CKAN then 12 else 8
  }

  /**
   * The header at `p`. The counts are 32-bit reads cut to their low 16 bits;
   * the slope flags are read only for CKAN and are 0xFFFF (all set) otherwise.
   */
  function DecodeTrackHeader(buf: seq<bv8>, p: nat, t: TrackType): (h: TrackHeader)
    requires p + HeaderBytes(t) <= |buf|
    ensures t == CANM ==> h.slopeFlags == 0xFFFF
  {
    TrackHeader(Low16(WordAt(buf, p)), Low16(WordAt(buf, p + 4)),
                if t == CKAN then Low16(WordAt(buf, p + 8)) else 0xFFFF)
  }

  /** Bytes per sample: two 32-bit words for CANM, three for CKAN without out slopes, four for CKAN with them. */
  function SampleBytes(t: TrackType, slopeFlags: u16): (n: nat)
    ensures 8 <= n <= 16
  {
    if t == CANM then 8 else if slopeFlags != 0 then 16 else 12
  }

  /** The absolute position of a track's first sample, computed in 32 bits. */
  function SampleStart(keyframeDataOffset: u32, beginIndex: u16): u32
  {
    Wrap32(keyframeDataOffset + 4 + 4 * beginIndex)
  }

  function DecodeSample(buf: seq<bv8>, q: nat, t: TrackType, slopeFlags: u16): Keyframe
    requires q + SampleBytes(t, slopeFlags) <= |buf|
  {
    Keyframe(WordAt(buf, q), WordAt(buf, q + 4),
             if t == CKAN then WordAt(buf, q + 8) else 0,
             if t == CKAN && slopeFlags != 0 then WordAt(buf, q + 12) else 0)
  }

  /** The `n` consecutive samples starting at `q`. */
  function DecodeSamples(buf: seq<bv8>, q: nat, n: nat, t: TrackType, slopeFlags: u16): (ks: seq<Keyframe>)
    requires q + SampleBytes(t, slopeFlags) * n <= |buf|
    ensures |ks| == n
    ensures forall i :: 0 <= i < n ==> ks[i] == DecodeSample(buf, q + SampleBytes(t, slopeFlags) * i, t, slopeFlags)
  {
    seq(n, i requires 0 <= i < n => DecodeSample(buf, q + SampleBytes(t, slopeFlags) * i, t, slopeFlags))
  }

  /** The samples inserted in order into a map, each under the key of its frame. */
  function InsertAll(m: seq<Entry<Keyframe>>, samples: seq<Keyframe>, frameKey: bv32 -> u32): (r: seq<Entry<Keyframe>>)
    requires Sorted(m)
    ensures Sorted(r)
  {
    if samples == [] then m
    else
      var last := samples[|samples| - 1];
      Insert(InsertAll(m, samples[..|samples| - 1], frameKey), frameKey(last.frame), last)
  }

  /** The keys the samples carry. */
  function SampleKeys(samples: seq<Keyframe>, frameKey: bv32 -> u32): set<int>
  {
    set i | 0 <= i < |samples| :: frameKey(samples[i].frame)
  }

  /** The first sample whose frame has key `k`. */
  function FirstSample(samples: seq<Keyframe>, frameKey: bv32 -> u32, k: int): (r: Option<Keyframe>)
    ensures r.Some? <==> k in SampleKeys(samples, frameKey)
    ensures r.Some? ==> exists i :: 0 <= i < |samples| && samples[i] == r.value && frameKey(samples[i].frame) == k
                                    && forall j :: 0 <= j < i ==> frameKey(samples[j].frame) != k
  {
    if samples == [] then None
    else
      var init := samples[..|samples| - 1];
      var last := samples[|samples| - 1];
      SampleKeysSnoc(samples, frameKey);
      assert forall i :: 0 <= i < |init| ==> init[i] == samples[i];
      match FirstSample(init, frameKey, k)
      case Some(x) => Some(x)
      case None => if frameKey(last.frame) == k then Some(last) else None
  }

  /** The keys of the map after the inserts: the old keys and the samples' keys. */
  lemma {:induction false} InsertAllKeys(m: seq<Entry<Keyframe>>, samples: seq<Keyframe>, frameKey: bv32 -> u32)
    requires Sorted(m)
    ensures KeySet(InsertAll(m, samples, frameKey)) == KeySet(m) + SampleKeys(samples, frameKey)
  {
    if samples != [] {
      var init := samples[..|samples| - 1];
      var last := samples[|samples| - 1];
      InsertAllKeys(m, init, frameKey);
      InsertKeys(InsertAll(m, init, frameKey), frameKey(last.frame), last);
      SampleKeysSnoc(samples, frameKey);
    }
  }

  /** The keys of a non-empty run of samples: those of all but the last, and the last one's. */
  lemma SampleKeysSnoc(samples: seq<Keyframe>, frameKey: bv32 -> u32)
    requires samples != []
    ensures SampleKeys(samples, frameKey)
            == SampleKeys(samples[..|samples| - 1], frameKey) + {frameKey(samples[|samples| - 1].frame)}
  {
    var init := samples[..|samples| - 1];
    assert forall i :: 0 <= i < |init| ==> init[i] == samples[i];
  }

  /** Inserting one more sample: InsertAll over a prefix one longer. */
  lemma InsertAllStep(m: seq<Entry<Keyframe>>, samples: seq<Keyframe>, n: nat, frameKey: bv32 -> u32)
    requires Sorted(m) && n < |samples|
    ensures InsertAll(m, samples[..n + 1], frameKey)
            == Insert(InsertAll(m, samples[..n], frameKey), frameKey(samples[n].frame), samples[n])
  {
    assert samples[..n + 1][..n] == samples[..n];
  }

  /**
   * `std::map::insert` keeps the first sample for a key: after the inserts a
   * key of the old map keeps its old value, and a new key holds the first
   * sample that carried it.
   */
  lemma {:induction false} InsertAllLookup(m: seq<Entry<Keyframe>>, samples: seq<Keyframe>, frameKey: bv32 -> u32,
                                           k: int)
    requires Sorted(m)
    ensures Lookup(InsertAll(m, samples, frameKey), k)
            == if k in KeySet(m) then Lookup(m, k) else FirstSample(samples, frameKey, k)
  {
    if samples != [] {
      var init := samples[..|samples| - 1];
      var last := samples[|samples| - 1];
      var before := InsertAll(m, init, frameKey);
      InsertAllLookup(m, init, frameKey, k);
      InsertAllKeys(m, init, frameKey);
      InsertLookup(before, frameKey(last.frame), last, k);
    }
  }

  /** The map gains at most one entry per sample. */
  lemma {:induction false} InsertAllLength(m: seq<Entry<Keyframe>>, samples: seq<Keyframe>, frameKey: bv32 -> u32)
    requires Sorted(m)
    ensures |InsertAll(m, samples, frameKey)| <= |m| + |samples|
  {
    if samples != [] {
      var init := samples[..|samples| - 1];
      var last := samples[|samples| - 1];
      InsertAllLength(m, init, frameKey);
      InsertLength(InsertAll(m, init, frameKey), frameKey(last.frame), last);
    }
  }

  /** The map's keys in iteration order as `int32_t` values (`mKeys` is a vector of int32_t). */
  function SignedKeys(es: seq<Entry<Keyframe>>): (ks: seq<i32>)
    ensures |ks| == |es|
    ensures forall i :: 0 <= i < |es| ==> ks[i] == ToI32(es[i].key)
  {
    seq(|es|, i requires 0 <= i < |es| => ToI32(es[i].key))
  }

  predicate StrictlyAscending(ks: seq<i32>)
  {
    forall i, j :: 0 <= i < j < |ks| ==> ks[i] < ks[j]
  }

  /** A sorted map whose keys are below 2^31 lists its keys strictly ascending as int32_t. */
  lemma SignedKeysAscending(es: seq<Entry<Keyframe>>)
    requires Sorted(es)
    requires forall i :: 0 <= i < |es| ==> es[i].key <= MaxI32
    ensures StrictlyAscending(SignedKeys(es))
  {
  }

  /** A key of 2^31 or more turns negative as int32_t: keys 1 and 2^31 are listed as 1, -2^31. */
  lemma LargeKeyBreaksOrder()
    ensures var es := [Entry(1, Keyframe(0, 0, 0, 0)), Entry(0x8000_0000, Keyframe(0, 0, 0, 0))];
            Sorted(es) && !StrictlyAscending(SignedKeys(es))
  {
    var es := [Entry(1, Keyframe(0, 0, 0, 0)), Entry(0x8000_0000, Keyframe(0, 0, 0, 0))];
    assert SignedKeys(es)[0] == 1;
    assert SignedKeys(es)[1] == -0x8000_0000;
  }

  /**
   * Loading into an empty track: the listed keys are the loaded frames' keys,
   * strictly ascending when below 2^31, at most one per sample, and each key
   * holds the first sample that carried it.
   */
  lemma LoadedIntoEmpty(samples: seq<Keyframe>, frameKey: bv32 -> u32, k: int)
    ensures var frames := InsertAll([], samples, frameKey);
            && KeySet(frames) == SampleKeys(samples, frameKey)
            && |SignedKeys(frames)| <= |samples|
            && Lookup(frames, k) == FirstSample(samples, frameKey, k)
            && ((forall i :: 0 <= i < |samples| ==> frameKey(samples[i].frame) <= MaxI32) ==>
                  StrictlyAscending(SignedKeys(frames)))
  {
    var frames := InsertAll([], samples, frameKey);
    InsertAllKeys([], samples, frameKey);
    InsertAllLength([], samples, frameKey);
    InsertAllLookup([], samples, frameKey, k);
    if forall i :: 0 <= i < |samples| ==> frameKey(samples[i].frame) <= MaxI32 {
      forall i | 0 <= i < |frames| ensures frames[i].key <= MaxI32 {
        assert frames[i].key in KeySet(frames);
      }
      SignedKeysAscending(frames);
    }
  }

  /**
   * The key list and the map agree: the map is ordered with 32-bit keys,
   * every listed key is a key of the map, and every key of the map is listed.
   */
  ghost predicate InStep(keys: seq<i32>, frames: seq<Entry<Keyframe>>)
  {
    && Sorted(frames)
    && (forall i :: 0 <= i < |keys| ==> ToU32(keys[i]) in KeySet(frames))
    && (forall i :: 0 <= i < |frames| ==> ToI32(frames[i].key) in keys)
  }

  /** The header at `p`, and the samples it points to, lie inside `buf`. */
  predicate TrackReadable(buf: seq<bv8>, p: nat, keyframeDataOffset: u32, t: TrackType)
  {
    && p + HeaderBytes(t) <= |buf|
    && var h := DecodeTrackHeader(buf, p, t);
       SampleStart(keyframeDataOffset, h.beginIndex) + SampleBytes(t, h.slopeFlags) * h.keyCount <= |buf|
  }

  class Track {
    var trackType: TrackType
    /** The frame keys as listed on the timeline (`mKeys`). */
    var keys: seq<i32>
    /** The keyframes by integer frame (`mFrames`). */
    var frames: seq<Entry<Keyframe>>

    constructor ()
      ensures keys == [] && frames == []
    {
      keys := [];
      frames := [];
    }

    /** The key list and the map agree (InStep). */
    ghost predicate Valid()
      reads this
    {
      InStep(keys, frames)
    }

    /** A stream whose header at its position, and the samples it points to, can be read. */
    static predicate Readable(s: Stream, keyframeDataOffset: u32, t: TrackType)
      reads s
    {
      TrackReadable(s.buffer, s.position, keyframeDataOffset, t)
    }

    /**
     * Reads the track header at the stream position, inserts the samples it
     * points to into the map, returns the stream to just after the header and
     * appends every key of the map, in ascending order, to the key list.
     */
    method LoadTrack(s: Stream, keyframeDataOffset: u32, t: TrackType, frameKey: bv32 -> u32)
      requires Valid() && Readable(s, keyframeDataOffset, t)
      modifies this, s
      ensures Valid()
      ensures trackType == t
      ensures s.position == old(s.position) + HeaderBytes(t)
      ensures var h := DecodeTrackHeader(s.buffer, old(s.position), t);
              frames == InsertAll(old(frames),
                                  DecodeSamples(s.buffer, SampleStart(keyframeDataOffset, h.beginIndex), h.keyCount,
                                                t, h.slopeFlags),
                                  frameKey)
      ensures keys == old(keys) + SignedKeys(frames)
    {
      trackType := t;
      var h := ReadTrackHeader(s, trackType);
      var keyCount, beginIndex, slopeFlags := h.keyCount, h.beginIndex, h.slopeFlags;

      var group := s.Tell();
      s.Seek(SampleStart(keyframeDataOffset, beginIndex));
      ghost var samples := DecodeSamples(s.buffer, s.position, keyCount, t, slopeFlags);
      ReadSamples(s, keyCount, slopeFlags, frameKey);
      assert frames == InsertAll(old(frames), samples, frameKey);
      s.Seek(group);

      AppendKeys();
      KeptValid(old(keys), old(frames), samples, frameKey);
    }

    /** The header words; only CKAN stores slope flags, which otherwise stay 0xFFFF (`(uint16_t)-1`). */
    static method ReadTrackHeader(s: Stream, t: TrackType) returns (h: TrackHeader)
      requires s.position + HeaderBytes(t) <= |s.buffer|
      modifies s
      ensures h == DecodeTrackHeader(s.buffer, old(s.position), t)
      ensures s.position == old(s.position) + HeaderBytes(t)
    {
      ghost var expected := DecodeTrackHeader(s.buffer, s.position, t);
      var w := s.ReadWord();
      var keyCount := Low16(w);
      w := s.ReadWord();
      var beginIndex := Low16(w);
      var slopeFlags: u16 := 0xFFFF;
      if t == CKAN {
        w := s.ReadWord();
        slopeFlags := Low16(w);
      }
      h := TrackHeader(keyCount, beginIndex, slopeFlags);
      assert h == expected;
    }

    /**
     * Reads `keyCount` samples from the stream position and inserts each into
     * the map under its frame's key; a key already present keeps its sample.
     */
    method ReadSamples(s: Stream, keyCount: u16, slopeFlags: u16, frameKey: bv32 -> u32)
      requires Sorted(frames)
      requires s.position + SampleBytes(trackType, slopeFlags) * keyCount <= |s.buffer|
      modifies this, s
      ensures keys == old(keys) && trackType == old(trackType)
      ensures frames == InsertAll(old(frames),
                                  DecodeSamples(s.buffer, old(s.position), keyCount, trackType, slopeFlags), frameKey)
      ensures s.position == old(s.position) + SampleBytes(trackType, slopeFlags) * keyCount
    {
      ghost var q := s.position;
      ghost var stride := SampleBytes(trackType, slopeFlags);
      ghost var samples := DecodeSamples(s.buffer, q, keyCount, trackType, slopeFlags);
      for frame := 0 to keyCount
        invariant keys == old(keys) && trackType == old(trackType)
        invariant s.position == q + stride * frame
        invariant Sorted(frames)
        invariant frames == InsertAll(old(frames), samples[..frame], frameKey)
      {
        StrideStep(q, stride, frame, keyCount);
        var keyframe := ReadSample(s, trackType, slopeFlags);
        assert keyframe == samples[frame];
        InsertAllStep(old(frames), samples, frame, frameKey);
        frames := Insert(frames, frameKey(keyframe.frame), keyframe);
      }
      assert samples[..keyCount] == samples;
    }

    /**
     * One sample: frame and value, then for CKAN the in slope and, with slope
     * flags, the out slope; absent slopes are 0.
     */
    static method ReadSample(s: Stream, t: TrackType, slopeFlags: u16) returns (keyframe: Keyframe)
      requires s.position + SampleBytes(t, slopeFlags) <= |s.buffer|
      modifies s
      ensures keyframe == DecodeSample(s.buffer, old(s.position), t, slopeFlags)
      ensures s.position == old(s.position) + SampleBytes(t, slopeFlags)
    {
      var value: bv32;
      var inslope: bv32 := 0;
      var outslope: bv32 := 0;
      var f := s.ReadWord();
      value := s.ReadWord();
      if t == CKAN {
        inslope := s.ReadWord();
        if slopeFlags != 0 {
          outslope := s.ReadWord();
        }
      }
      keyframe := Keyframe(f, value, inslope, outslope);
    }

    /** Appends every key of the map, in the map's ascending order, to the key list. */
    method AppendKeys()
      modifies this
      ensures frames == old(frames) && trackType == old(trackType)
      ensures keys == old(keys) + SignedKeys(frames)
    {
      for i := 0 to |frames|
        invariant frames == old(frames) && trackType == old(trackType)
        invariant keys == old(keys) + SignedKeys(frames[..i])
      {
        assert SignedKeys(frames[..i + 1]) == SignedKeys(frames[..i]) + [ToI32(frames[i].key)];
        keys := keys + [ToI32(frames[i].key)];
      }
      assert frames[..|frames|] == frames;
    }

    /** Writing a track back is not implemented: nothing is written and nothing changes. */
    method SaveTrack(s: Stream, framesOut: Stream, keyframeDataOffset: u32, t: TrackType)
      ensures s.position == old(s.position) && framesOut.position == old(framesOut.position)
      ensures keys == old(keys) && frames == old(frames)
    {
    }
  }

  /** One more sample still ends inside the region. */
  lemma StrideStep(q: nat, stride: nat, frame: nat, keyCount: nat)
    requires frame < keyCount
    ensures q + stride * frame + stride <= q + stride * keyCount
    ensures q + stride * (frame + 1) == q + stride * frame + stride
  {
  }

  /** LoadTrack keeps the key list and the map in step. */
  lemma KeptValid(keys0: seq<i32>, frames0: seq<Entry<Keyframe>>, samples: seq<Keyframe>, frameKey: bv32 -> u32)
    requires Sorted(frames0)
    requires forall i :: 0 <= i < |keys0| ==> ToU32(keys0[i]) in KeySet(frames0)
    ensures var frames := InsertAll(frames0, samples, frameKey);
            var keys := keys0 + SignedKeys(frames);
            && (forall i :: 0 <= i < |keys| ==> ToU32(keys[i]) in KeySet(frames))
            && (forall i :: 0 <= i < |frames| ==> ToI32(frames[i].key) in keys)
  {
    var frames := InsertAll(frames0, samples, frameKey);
    var keys := keys0 + SignedKeys(frames);
    InsertAllKeys(frames0, samples, frameKey);
    forall i | 0 <= i < |keys| ensures ToU32(keys[i]) in KeySet(frames) {
      if i >= |keys0| {
        var j := i - |keys0|;
        assert keys[i] == ToI32(frames[j].key);
        assert frames[j].key in KeySet(frames);
      }
    }
    forall i | 0 <= i < |frames| ensures ToI32(frames[i].key) in keys {
      assert keys[|keys0| + i] == ToI32(frames[i].key);
    }
  }
}
