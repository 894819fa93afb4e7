/** The synthetic data generator: the layout of a generated gesture (frames,
    landmarks and the hand's finger groups), and the files it writes (which
    person and sequence a sample index stands for, and the file name). The
    random draws are parameters. */
module SampleData {
  import opened Decimal
  import opened Recognizer

  const SAMPLES_PER_GESTURE: nat := 50
  /** Samples recorded per synthetic person. */
  const PER_PERSON: nat := 10
  const DURATION_MS: nat := 1000

  // ---------------------------------------------------------------------
  // Sample ids and file names
  // ---------------------------------------------------------------------

  /** `person_id = sample_idx // 10 + 1`: ten samples per person. */
  function PersonId(sampleIdx: nat): (p: nat)
    ensures p >= 1
    ensures 10 * (p - 1) <= sampleIdx < 10 * p
  {
    sampleIdx / 10 + 1
  }

  /** `seq_id = sample_idx % 10 + 1`: the sample's number for its person. */
  function SeqId(sampleIdx: nat): (s: nat)
    ensures 1 <= s <= 10
    ensures sampleIdx == 10 * (PersonId(sampleIdx) - 1) + (s - 1)
  {
    sampleIdx % 10 + 1
  }

  /** Distinct sample indices never share both ids. */
  lemma IdsDetermineSample(a: nat, b: nat)
    requires PersonId(a) == PersonId(b) && SeqId(a) == SeqId(b)
    ensures a == b
  {
  }

  /** With 50 samples per gesture the ids span persons 1..5, sequences 1..10. */
  lemma IdRanges(sampleIdx: nat)
    requires sampleIdx < SAMPLES_PER_GESTURE
    ensures 1 <= PersonId(sampleIdx) <= SAMPLES_PER_GESTURE / PER_PERSON
    ensures 1 <= SeqId(sampleIdx) <= PER_PERSON
  {
  }

  const NAME_PREFIX: string := "person"
  const SEQ_TAG: string := "_seq"
  const EXTENSION: string := ".json"

  /** `f'person{person_id}_seq{seq_id:03d}.json'`. */
  function Filename(sampleIdx: nat): (name: string)
    ensures |name| >= |NAME_PREFIX| + 1 + |SEQ_TAG| + 3 + |EXTENSION|
  {
    NAME_PREFIX + NatToString(PersonId(sampleIdx)) + SEQ_TAG + ZeroPad(NatToString(SeqId(sampleIdx)), 3) + EXTENSION
  }

  /** `f'person{person_id}'`, the `person_id` field of a sample file. */
  function PersonTag(sampleIdx: nat): (tag: string)
    ensures |tag| > |NAME_PREFIX|
    ensures tag[..|NAME_PREFIX|] == NAME_PREFIX && tag[|NAME_PREFIX|..] == NatToString(PersonId(sampleIdx))
  {
    NAME_PREFIX + NatToString(PersonId(sampleIdx))
  }

  /** Numbers below 100 print in at most two digits. */
  lemma ShortNumber(n: nat)
    requires n < 100
    ensures |NatToString(n)| <= 2
  {
    if n >= 10 {
      assert NatToString(n) == NatToString(n / 10) + [DigitChar(n % 10)];
    }
  }

  /** The sequence number is always written with exactly three digits. */
  lemma SeqFieldWidth(sampleIdx: nat)
    ensures |ZeroPad(NatToString(SeqId(sampleIdx)), 3)| == 3
  {
    ShortNumber(SeqId(sampleIdx));
  }

  /** Where the pieces of a five-part concatenation sit. */
  lemma ConcatPieces<T>(a: seq<T>, p: seq<T>, b: seq<T>, s: seq<T>, e: seq<T>)
    ensures var x := a + p + b + s + e;
      |x| == |a| + |p| + |b| + |s| + |e| &&
      x[|a|..|a| + |p|] == p &&
      x[|a| + |p| + |b|..|a| + |p| + |b| + |s|] == s
  {
    var x := a + p + b + s + e;
    assert x == a + (p + (b + (s + e)));
    assert x[|a|..] == p + (b + (s + e));
    assert x[|a| + |p| + |b|..] == s + e;
  }

  /** Two equal file names have the same person digits and the same three
      sequence digits: the person digits sit between "person" and the last
      twelve characters. */
  lemma FilenameFields(a: nat, b: nat)
    requires Filename(a) == Filename(b)
    ensures NatToString(PersonId(a)) == NatToString(PersonId(b))
    ensures ZeroPad(NatToString(SeqId(a)), 3) == ZeroPad(NatToString(SeqId(b)), 3)
  {
    SeqFieldWidth(a);
    SeqFieldWidth(b);
    SameFrameSameFields(NAME_PREFIX, NatToString(PersonId(a)), NatToString(PersonId(b)), SEQ_TAG,
                        ZeroPad(NatToString(SeqId(a)), 3), ZeroPad(NatToString(SeqId(b)), 3), EXTENSION);
  }

  /** Equal concatenations around the same fixed pieces, with second
      variable fields of equal length, have equal fields. */
  lemma SameFrameSameFields<T>(a: seq<T>, p1: seq<T>, p2: seq<T>, b: seq<T>, s1: seq<T>, s2: seq<T>, e: seq<T>)
    requires a + p1 + b + s1 + e == a + p2 + b + s2 + e && |s1| == |s2|
    ensures p1 == p2 && s1 == s2
  {
    var x := a + p1 + b + s1 + e;
    ConcatPieces(a, p1, b, s1, e);
    ConcatPieces(a, p2, b, s2, e);
    assert |p1| == |p2|;
    assert p1 == x[|a|..|a| + |p1|] == p2;
  }

  /** Distinct sample indices get distinct file names, so no sample file of
      a gesture overwrites another. */
  lemma FilenameInjective(a: nat, b: nat)
    requires Filename(a) == Filename(b)
    ensures a == b
  {
    FilenameFields(a, b);
    NatToStringInjective(PersonId(a), PersonId(b));
    ZeroPadValue(SeqId(a), 3);
    ZeroPadValue(SeqId(b), 3);
    IdsDetermineSample(a, b);
  }

  // ---------------------------------------------------------------------
  // Hand structure
  // ---------------------------------------------------------------------

  /** The landmark groups of the simplified hand. */
  datatype Group = Wrist | Thumb | IndexFinger | MiddleFinger | RingFinger | Pinky

  /** The if/elif chain that picks a landmark's group. */
  function GroupOf(landmarkIdx: nat): Group
  {
    if landmarkIdx == 0 then Wrist
    else if 1 <= landmarkIdx <= 4 then Thumb
    else if 5 <= landmarkIdx <= 8 then IndexFinger
    else if 9 <= landmarkIdx <= 12 then MiddleFinger
    else if 13 <= landmarkIdx <= 16 then RingFinger
    else Pinky
  }

  /** The first landmark of each group, and how many it has. */
  function GroupStart(g: Group): nat {
    match g
    case Wrist => 0
    case Thumb => 1
    case IndexFinger => 5
    case MiddleFinger => 9
    case RingFinger => 13
    case Pinky => 17
  }

  function GroupSize(g: Group): nat {
    if g == Wrist then 1 else 4
  }

  predicate InGroup(landmarkIdx: nat, g: Group) {
    GroupStart(g) <= landmarkIdx < GroupStart(g) + GroupSize(g)
  }

  /** Each of the 21 landmarks falls in exactly one group, the one the chain
      picks. */
  lemma GroupsPartitionHand(landmarkIdx: nat)
    requires landmarkIdx < LANDMARKS_PER_HAND
    ensures InGroup(landmarkIdx, GroupOf(landmarkIdx))
    ensures forall g :: InGroup(landmarkIdx, g) ==> g == GroupOf(landmarkIdx)
  {
  }

  /** The group sizes add up to the 21 landmarks of a hand. */
  lemma GroupsCoverHand()
    ensures GroupSize(Wrist) + GroupSize(Thumb) + GroupSize(IndexFinger) + GroupSize(MiddleFinger) +
      GroupSize(RingFinger) + GroupSize(Pinky) == LANDMARKS_PER_HAND
    ensures forall g :: g != Wrist ==> GroupStart(g) == GroupStart(Prev(g)) + GroupSize(Prev(g))
  {
  }

  /** The group before g, for the adjacency of groups. */
  function Prev(g: Group): Group
    requires g != Wrist
  {
    match g
    case Thumb => Wrist
    case IndexFinger => Thumb
    case MiddleFinger => IndexFinger
    case RingFinger => MiddleFinger
    case Pinky => RingFinger
  }

  /** The noiseless position of a landmark around the frame's base point:
      the thumb fans out along x, the four fingers stand in columns and run
      along y. */
  function HandShape(base: Landmark, landmarkIdx: nat): (p: Landmark)
    ensures p.z == base.z
    ensures GroupOf(landmarkIdx) == Wrist ==> p == base
  {
    var g := GroupOf(landmarkIdx);
    var joint := (landmarkIdx - GroupStart(g)) as real;
    match g
    case Wrist => base
    case Thumb => Landmark(base.x - 0.05 + joint * 0.02, base.y + 0.02, base.z)
    case IndexFinger => Landmark(base.x - 0.02, base.y - joint * 0.025, base.z)
    case MiddleFinger => Landmark(base.x, base.y - joint * 0.025, base.z)
    case RingFinger => Landmark(base.x + 0.02, base.y - joint * 0.025, base.z)
    case Pinky => Landmark(base.x + 0.04, base.y - joint * 0.025, base.z)
  }

  /** Within a finger each next joint lies 0.025 further along y in the same
      column; along the thumb each next joint lies 0.02 further along x. */
  lemma JointSpacing(base: Landmark, landmarkIdx: nat)
    requires GroupOf(landmarkIdx) != Wrist && GroupOf(landmarkIdx + 1) == GroupOf(landmarkIdx)
    ensures var p, q := HandShape(base, landmarkIdx), HandShape(base, landmarkIdx + 1);
      if GroupOf(landmarkIdx) == Thumb then q.x == p.x + 0.02 && q.y == p.y
      else q.x == p.x && q.y == p.y - 0.025
  {
  }

  /** The small random jitter added to every coordinate. */
  function Jitter(p: Landmark, noise: Landmark): (q: Landmark)
    ensures q.x - p.x == noise.x && q.y - p.y == noise.y && q.z - p.z == noise.z
  {
    Landmark(p.x + noise.x, p.y + noise.y, p.z + noise.z)
  }

  /** The pattern `generate_gesture_pattern` returns, given the base point of
      each frame (the gesture's movement and its random wobble) and the noise
      drawn for each landmark. */
  function GesturePattern(base: nat -> Landmark, noise: (nat, nat) -> Landmark): seq<seq<Landmark>>
  {
    seq(SEQUENCE_LENGTH, f requires 0 <= f =>
      seq(LANDMARKS_PER_HAND, l requires 0 <= l => Jitter(HandShape(base(f), l), noise(f, l))))
  }

  /** `generate_gesture_pattern`: 30 frames, each of the 21 landmarks placed
      by the hand structure around the frame's base point plus noise. */
  method GenerateGesturePattern(base: nat -> Landmark, noise: (nat, nat) -> Landmark)
    returns (frames: seq<seq<Landmark>>)
    ensures frames == GesturePattern(base, noise)
  {
    frames := [];
    for frameIdx := 0 to SEQUENCE_LENGTH
      invariant |frames| == frameIdx
      invariant forall f :: 0 <= f < frameIdx ==> frames[f] == GesturePattern(base, noise)[f]
    {
      var landmarks: seq<Landmark> := [];
      var b := base(frameIdx);
      for landmarkIdx := 0 to LANDMARKS_PER_HAND
        invariant |landmarks| == landmarkIdx
        invariant forall l :: 0 <= l < landmarkIdx ==> landmarks[l] == Jitter(HandShape(b, l), noise(frameIdx, l))
      {
        landmarks := landmarks + [Jitter(HandShape(b, landmarkIdx), noise(frameIdx, landmarkIdx))];
      }
      frames := frames + [landmarks];
    }
  }

  /** A generated pattern has 30 frames of 21 landmarks, and the wrist of
      each frame is its base point plus that landmark's noise. */
  lemma PatternShape(base: nat -> Landmark, noise: (nat, nat) -> Landmark)
    ensures |GesturePattern(base, noise)| == SEQUENCE_LENGTH
    ensures forall f :: 0 <= f < SEQUENCE_LENGTH ==>
      |GesturePattern(base, noise)[f]| == LANDMARKS_PER_HAND &&
      GesturePattern(base, noise)[f][0] == Jitter(base(f), noise(f, 0))
  {
  }

  // ---------------------------------------------------------------------
  // The dataset
  // ---------------------------------------------------------------------

  /** One entry of "sequences": the frames and `duration_ms`. */
  datatype SequenceRecord = SequenceRecord(frames: seq<seq<Landmark>>, durationMs: nat)

  /** One written sample file: its gesture directory and name, and the JSON
      content's gesture, person id and sequences. */
  datatype SampleFile = SampleFile(directory: string, name: string, gesture: string,
                                   personId: string, sequences: seq<SequenceRecord>)

  /** The file written for sample i of a gesture. */
  function FileFor(gesture: string, sampleIdx: nat, frames: seq<seq<Landmark>>): (f: SampleFile)
    ensures |f.sequences| == 1 && f.sequences[0].durationMs == DURATION_MS
  {
    SampleFile(gesture, Filename(sampleIdx), gesture, PersonTag(sampleIdx), [SequenceRecord(frames, DURATION_MS)])
  }

  /** `generate_dataset`: for each gesture and each of the 50 sample indices,
      generate a pattern from that call's random draws and write it to its
      file. The files are returned in the order they are written. */
  method GenerateDataset(gestures: seq<string>, base: (string, nat) -> (nat -> Landmark),
                         noise: (string, nat) -> ((nat, nat) -> Landmark))
    returns (files: seq<SampleFile>)
    ensures |files| == SAMPLES_PER_GESTURE * |gestures|
    ensures forall k :: 0 <= k < |files| ==>
      var g, i := gestures[k / SAMPLES_PER_GESTURE], k % SAMPLES_PER_GESTURE;
      files[k] == FileFor(g, i, GesturePattern(base(g, i), noise(g, i)))
  {
    files := [];
    for gi := 0 to |gestures|
      invariant |files| == SAMPLES_PER_GESTURE * gi
      invariant forall k :: 0 <= k < |files| ==>
        var g, i := gestures[k / SAMPLES_PER_GESTURE], k % SAMPLES_PER_GESTURE;
        files[k] == FileFor(g, i, GesturePattern(base(g, i), noise(g, i)))
    {
      var gesture := gestures[gi];
      for sampleIdx := 0 to SAMPLES_PER_GESTURE
        invariant |files| == SAMPLES_PER_GESTURE * gi + sampleIdx
        invariant forall k :: 0 <= k < |files| ==>
          var g, i := gestures[k / SAMPLES_PER_GESTURE], k % SAMPLES_PER_GESTURE;
          files[k] == FileFor(g, i, GesturePattern(base(g, i), noise(g, i)))
      {
        var frames := GenerateGesturePattern(base(gesture, sampleIdx), noise(gesture, sampleIdx));
        var k := |files|;
        assert k / SAMPLES_PER_GESTURE == gi && k % SAMPLES_PER_GESTURE == sampleIdx;
        files := files + [FileFor(gesture, sampleIdx, frames)];
      }
    }
  }

  /** With distinct gesture names no two written files share a directory
      and a name. */
  lemma FilesDoNotCollide(gestures: seq<string>, files: seq<SampleFile>, j: nat, k: nat)
    requires forall a, b :: 0 <= a < b < |gestures| ==> gestures[a] != gestures[b]
    requires |files| == SAMPLES_PER_GESTURE * |gestures|
    requires forall k :: 0 <= k < |files| ==>
      files[k].directory == gestures[k / SAMPLES_PER_GESTURE] && files[k].name == Filename(k % SAMPLES_PER_GESTURE)
    requires j < k < |files|
    ensures files[j].directory != files[k].directory || files[j].name != files[k].name
  {
    var a, b := j % SAMPLES_PER_GESTURE, k % SAMPLES_PER_GESTURE;
    if Filename(a) == Filename(b) {
      FilenameInjective(a, b);
    }
    var ga, gb := j / SAMPLES_PER_GESTURE, k / SAMPLES_PER_GESTURE;
    assert ga < |gestures| && gb < |gestures|;
    assert ga == gb ==> a != b;
  }
}
