/** The data plumbing of the training script: which recorded sequences
    `load_dataset` keeps and how it labels them, and how `augment_dataset`
    interleaves originals with augmented copies. The augmenter itself is
    random floating-point work and stays a parameter. */
module Dataset {
  import opened Recognizer

  /** A training sample: one row of landmark values per frame. */
  type Sample = seq<Vector>

  /** One frame of a recording: the landmarks of a single hand. */
  type Frame = seq<Landmark>

  // ---------------------------------------------------------------------
  // augment_dataset
  // ---------------------------------------------------------------------

  /** How many output samples each input sample yields: the original plus
      `factor - 1` copies, where `range(factor - 1)` is empty for a factor
      below 2. */
  function Copies(factor: int): (m: nat)
    ensures m >= 1
    ensures factor >= 1 ==> m == factor
    ensures factor < 1 ==> m == 1
  {
    if factor < 1 then 1 else factor
  }

  /** The k augmented copies of x, produced by calls number c, c + 1, ... of
      the augmenter (the call number stands for the random state). */
  function AugmentedCopies(x: Sample, augment: (Sample, nat) -> Sample, c: nat, k: nat): (r: seq<Sample>)
    ensures |r| == k
    ensures forall t :: 0 <= t < k ==> r[t] == augment(x, c + t)
  {
    if k == 0 then [] else AugmentedCopies(x, augment, c, k - 1) + [augment(x, c + k - 1)]
  }

  /** The samples `augment_dataset` returns for X with m outputs per input,
      when the augmenter's call counter starts at c. */
  function AugmentedSamples(xs: seq<Sample>, m: nat, augment: (Sample, nat) -> Sample, c: nat): seq<Sample>
    requires m >= 1
  {
    if xs == [] then []
    else [xs[0]] + AugmentedCopies(xs[0], augment, c, m - 1) + AugmentedSamples(xs[1..], m, augment, c + m - 1)
  }

  /** `[v] * k`. */
  function Repeat(v: int, k: nat): (r: seq<int>)
    ensures |r| == k
    ensures forall t :: 0 <= t < k ==> r[t] == v
  {
    if k == 0 then [] else Repeat(v, k - 1) + [v]
  }

  /** The labels `augment_dataset` returns: each label m times. */
  function AugmentedLabels(ys: seq<int>, m: nat): seq<int>
  {
    if ys == [] then [] else Repeat(ys[0], m) + AugmentedLabels(ys[1..], m)
  }

  /** `augment_dataset(X, y, augmentation_factor)`: for each sample, append
      it, then `factor - 1` augmented copies, each with the sample's label. */
  method AugmentDataset(xs: seq<Sample>, ys: seq<int>, factor: int, augment: (Sample, nat) -> Sample)
    returns (xa: seq<Sample>, ya: seq<int>)
    requires |xs| == |ys|
    ensures xa == AugmentedSamples(xs, Copies(factor), augment, 0)
    ensures ya == AugmentedLabels(ys, Copies(factor))
  {
    var m := Copies(factor);
    xa, ya := [], [];
    var calls: nat := 0;
    for i := 0 to |xs|
      invariant xa + AugmentedSamples(xs[i..], m, augment, calls) == AugmentedSamples(xs, m, augment, 0)
      invariant ya + AugmentedLabels(ys[i..], m) == AugmentedLabels(ys, m)
    {
      ghost var before, labelsBefore, start := xa, ya, calls;
      xa, ya := xa + [xs[i]], ya + [ys[i]];
      for j := 0 to m - 1
        invariant calls == start + j
        invariant xa == before + [xs[i]] + AugmentedCopies(xs[i], augment, start, j)
        invariant ya == labelsBefore + [ys[i]] + Repeat(ys[i], j)
      {
        CopiesStep(xs[i], augment, start, j, calls);
        xa := xa + [augment(xs[i], calls)];
        ya := ya + [ys[i]];
        calls := calls + 1;
      }
      SamplesStep(xs, i, m, augment, start, calls, before, xa);
      LabelsStep(ys, i, m, labelsBefore, ya);
    }
    assert xs[|xs|..] == [] && ys[|ys|..] == [];
  }

  lemma CopiesStep(x: Sample, augment: (Sample, nat) -> Sample, c: nat, j: nat, c': nat)
    requires c' == c + j
    ensures AugmentedCopies(x, augment, c, j + 1) == AugmentedCopies(x, augment, c, j) + [augment(x, c')]
  {
  }

  /** One turn of the outer loop of `AugmentDataset` keeps its invariant. */
  lemma SamplesStep(xs: seq<Sample>, i: nat, m: nat, augment: (Sample, nat) -> Sample, c: nat, c': nat,
                    before: seq<Sample>, after: seq<Sample>)
    requires i < |xs| && m >= 1 && c' == c + m - 1
    requires after == before + [xs[i]] + AugmentedCopies(xs[i], augment, c, m - 1)
    ensures after + AugmentedSamples(xs[i + 1..], m, augment, c') ==
      before + AugmentedSamples(xs[i..], m, augment, c)
  {
    assert xs[i..][1..] == xs[i + 1..];
  }

  lemma LabelsStep(ys: seq<int>, i: nat, m: nat, before: seq<int>, after: seq<int>)
    requires i < |ys|
    requires m >= 1 && after == before + [ys[i]] + Repeat(ys[i], m - 1)
    ensures after + AugmentedLabels(ys[i + 1..], m) == before + AugmentedLabels(ys[i..], m)
  {
    assert ys[i..][1..] == ys[i + 1..];
    assert [ys[i]] + Repeat(ys[i], m - 1) == Repeat(ys[i], m);
  }

  /** Block i of length m of r: r[i * m..i * m + m], or [] when r is too short. */
  function Block<T>(r: seq<T>, m: nat, i: nat): seq<T>
  {
    if |r| < m then [] else if i == 0 then r[..m] else Block(r[m..], m, i - 1)
  }

  /** Dropping a first block of length m shifts the block numbers by one. */
  lemma BlockAfterHead<T>(head: seq<T>, rest: seq<T>, i: nat)
    requires i > 0
    ensures Block(head + rest, |head|, i) == Block(rest, |head|, i - 1)
  {
    assert (head + rest)[|head|..] == rest;
  }

  /** The outputs number |X| * m. */
  lemma {:induction false} AugmentedSamplesLength(xs: seq<Sample>, m: nat, augment: (Sample, nat) -> Sample, c: nat)
    requires m >= 1
    ensures |AugmentedSamples(xs, m, augment, c)| == |xs| * m
  {
    if xs != [] {
      AugmentedSamplesLength(xs[1..], m, augment, c + m - 1);
      ShiftBlock(|xs| - 1, m);
    }
  }

  /** Block i of the output is sample i followed by its m - 1 augmented
      copies, made by calls number c + i * (m - 1) onwards: the originals
      keep their order and each is followed by its own copies. */
  lemma AugmentedSamplesLayout(xs: seq<Sample>, m: nat, augment: (Sample, nat) -> Sample, c: nat)
    requires m >= 1
    ensures forall i :: 0 <= i < |xs| ==>
      Block(AugmentedSamples(xs, m, augment, c), m, i) ==
        [xs[i]] + AugmentedCopies(xs[i], augment, c + i * (m - 1), m - 1)
  {
    BlocksLaidOut(xs, m, augment, c);
    forall i | 0 <= i < |xs|
      ensures Block(AugmentedSamples(xs, m, augment, c), m, i) ==
        [xs[i]] + AugmentedCopies(xs[i], augment, c + i * (m - 1), m - 1)
    {
      assert BlockAt(xs, m, augment, c, i);
    }
  }

  /** Block i of the output for xs holds sample i and its copies. */
  predicate BlockAt(xs: seq<Sample>, m: nat, augment: (Sample, nat) -> Sample, c: nat, i: nat)
    requires m >= 1 && i < |xs|
  {
    Block(AugmentedSamples(xs, m, augment, c), m, i) ==
      [xs[i]] + AugmentedCopies(xs[i], augment, c + i * (m - 1), m - 1)
  }

  predicate LaidOut(xs: seq<Sample>, m: nat, augment: (Sample, nat) -> Sample, c: nat)
    requires m >= 1
  {
    forall i :: 0 <= i < |xs| ==> BlockAt(xs, m, augment, c, i)
  }

  lemma {:induction false} BlocksLaidOut(xs: seq<Sample>, m: nat, augment: (Sample, nat) -> Sample, c: nat)
    requires m >= 1
    ensures LaidOut(xs, m, augment, c)
  {
    if xs != [] {
      BlocksLaidOut(xs[1..], m, augment, c + m - 1);
      forall i | 0 <= i < |xs| ensures BlockAt(xs, m, augment, c, i) {
        if i == 0 {
          FirstBlock(xs, m, augment, c);
        } else {
          LaterBlock(xs, m, augment, c, i);
        }
      }
    }
  }

  /** Block 0 of the output is the first sample and its copies. */
  lemma FirstBlock(xs: seq<Sample>, m: nat, augment: (Sample, nat) -> Sample, c: nat)
    requires m >= 1 && xs != []
    ensures BlockAt(xs, m, augment, c, 0)
  {
    var head := [xs[0]] + AugmentedCopies(xs[0], augment, c, m - 1);
    var r := AugmentedSamples(xs, m, augment, c);
    assert r == head + AugmentedSamples(xs[1..], m, augment, c + m - 1);
    assert r[..m] == head;
  }

  /** Block i > 0 of the output is block i - 1 of the output for the rest. */
  lemma LaterBlock(xs: seq<Sample>, m: nat, augment: (Sample, nat) -> Sample, c: nat, i: nat)
    requires m >= 1 && 0 < i < |xs|
    requires LaidOut(xs[1..], m, augment, c + m - 1)
    ensures BlockAt(xs, m, augment, c, i)
  {
    var head := [xs[0]] + AugmentedCopies(xs[0], augment, c, m - 1);
    var rest := AugmentedSamples(xs[1..], m, augment, c + m - 1);
    assert AugmentedSamples(xs, m, augment, c) == head + rest;
    BlockAfterHead(head, rest, i);
    ShiftBlock(i - 1, m);
    assert BlockAt(xs[1..], m, augment, c + m - 1, i - 1);
    assert xs[1..][i - 1] == xs[i];
  }

  /** Block i + 1 starts one block after block i. */
  lemma ShiftBlock(i: nat, m: nat)
    requires m >= 1
    ensures (i + 1) * m == m + i * m
    ensures (i + 1) * (m - 1) == (m - 1) + i * (m - 1)
  {
  }

  /** The labels number |y| * m. */
  lemma {:induction false} AugmentedLabelsLength(ys: seq<int>, m: nat)
    ensures |AugmentedLabels(ys, m)| == |ys| * m
  {
    if ys != [] {
      AugmentedLabelsLength(ys[1..], m);
      ShiftBlock(|ys| - 1, m + 1);
    }
  }

  /** Block i of the labels is label i repeated m times. */
  lemma {:induction false} AugmentedLabelsLayout(ys: seq<int>, m: nat)
    ensures forall i :: 0 <= i < |ys| ==> Block(AugmentedLabels(ys, m), m, i) == Repeat(ys[i], m)
  {
    if ys != [] {
      var head := Repeat(ys[0], m);
      var rest := AugmentedLabels(ys[1..], m);
      AugmentedLabelsLayout(ys[1..], m);
      var r := AugmentedLabels(ys, m);
      assert r == head + rest;
      forall i | 0 <= i < |ys| ensures Block(r, m, i) == Repeat(ys[i], m) {
        if i == 0 {
          assert r[..m] == head;
        } else {
          BlockAfterHead(head, rest, i);
          assert ys[1..][i - 1] == ys[i];
        }
      }
    }
  }

  /** With factor 1 (or less) nothing is augmented: the samples come back
      unchanged. */
  lemma {:induction false} FactorOneKeepsSamples(xs: seq<Sample>, factor: int, augment: (Sample, nat) -> Sample, c: nat)
    requires factor <= 1
    ensures AugmentedSamples(xs, Copies(factor), augment, c) == xs
  {
    if xs != [] {
      FactorOneKeepsSamples(xs[1..], factor, augment, c);
      assert [xs[0]] + xs[1..] == xs;
    }
  }

  /** With factor 1 (or less) the labels come back unchanged. */
  lemma {:induction false} FactorOneKeepsLabels(ys: seq<int>, factor: int)
    requires factor <= 1
    ensures AugmentedLabels(ys, Copies(factor)) == ys
  {
    if ys != [] {
      FactorOneKeepsLabels(ys[1..], factor);
      assert Repeat(ys[0], 1) == [ys[0]];
      assert [ys[0]] + ys[1..] == ys;
    }
  }

  // ---------------------------------------------------------------------
  // load_dataset
  // ---------------------------------------------------------------------

  /** One entry of a file's "sequences" list: its frames, or an entry whose
      frames or landmarks cannot be read (a missing key, a malformed
      coordinate), which raises while the file is being processed. */
  datatype Recording = Recording(frames: seq<Frame>) | Malformed

  /** What reading a file gives: its "sequences" list, or nothing when the
      file is not valid JSON or has no "sequences" key. */
  datatype FileContent = Sequences(recordings: seq<Recording>) | Unreadable

  /** A directory entry: its file name and what reading it gives. */
  datatype DirEntry = DirEntry(name: string, content: FileContent)

  /** The data directory: per gesture directory that exists, its entries in
      listing order. */
  type Directories = map<string, seq<DirEntry>>

  /** Features and labels. */
  datatype Dataset = Dataset(xs: seq<Sample>, ys: seq<int>)

  predicate EndsWith(s: string, suffix: string) {
    |suffix| <= |s| && s[|s| - |suffix|..] == suffix
  }

  /** One row per frame: the frame's landmarks flattened x, y, z. */
  function FrameRows(frames: seq<Frame>): (rows: Sample)
    ensures |rows| == |frames|
    ensures forall t :: 0 <= t < |frames| ==> rows[t] == Flatten(frames[t])
  {
    if frames == [] then [] else FrameRows(frames[..|frames| - 1]) + [Flatten(frames[|frames| - 1])]
  }

  /** How many recordings are processed before the first malformed one
      raises and abandons the rest of the file. */
  function Readable(rs: seq<Recording>): (n: nat)
    ensures n <= |rs|
    ensures forall k :: 0 <= k < n ==> rs[k].Recording?
    ensures n < |rs| ==> rs[n].Malformed?
  {
    if rs == [] || rs[0].Malformed? then 0 else 1 + Readable(rs[1..])
  }

  /** The samples kept from readable recordings: those of exactly
      SEQUENCE_LENGTH frames, in order. */
  function Kept(rs: seq<Recording>): seq<Sample>
  {
    if rs == [] then []
    else
      var last := rs[|rs| - 1];
      Kept(rs[..|rs| - 1]) +
        if last.Recording? && |last.frames| == SEQUENCE_LENGTH then [FrameRows(last.frames)] else []
  }

  /** The samples one file contributes. */
  function FileSamples(content: FileContent): seq<Sample>
  {
    match content
    case Unreadable => []
    case Sequences(rs) => Kept(rs[..Readable(rs)])
  }

  /** The samples one gesture directory contributes: its `.json` files in
      listing order. */
  function DirSamples(entries: seq<DirEntry>): seq<Sample>
  {
    if entries == [] then []
    else
      var last := entries[|entries| - 1];
      DirSamples(entries[..|entries| - 1]) +
        if EndsWith(last.name, ".json") then FileSamples(last.content) else []
  }

  /** What `load_dataset` returns: the gestures in order, each existing
      directory's samples labelled with the gesture's index. */
  function Load(gs: seq<string>, dirs: Directories): Dataset
  {
    if gs == [] then Dataset([], [])
    else
      var n := |gs| - 1;
      var d := Load(gs[..n], dirs);
      var s := if gs[n] in dirs then DirSamples(dirs[gs[n]]) else [];
      Dataset(d.xs + s, d.ys + Repeat(n, |s|))
  }

  /** `load_dataset`: for each gesture directory that exists and each `.json`
      file in it, add the file's kept samples labelled with the gesture's
      index. */
  method LoadDataset(gs: seq<string>, dirs: Directories) returns (xs: seq<Sample>, ys: seq<int>)
    ensures Dataset(xs, ys) == Load(gs, dirs)
  {
    xs, ys := [], [];
    for labelIdx := 0 to |gs|
      invariant Dataset(xs, ys) == Load(gs[..labelIdx], dirs)
    {
      LoadStep(gs, labelIdx, dirs, xs, ys);
      var gesture := gs[labelIdx];
      if gesture !in dirs {
        continue;
      }
      xs, ys := LoadDir(dirs[gesture], labelIdx, xs, ys);
    }
    assert gs[..|gs|] == gs;
  }

  /** The loop over one gesture directory: each `.json` file that opens
      adds its kept samples with the label. */
  method LoadDir(entries: seq<DirEntry>, labelIdx: int, xs0: seq<Sample>, ys0: seq<int>)
    returns (xs: seq<Sample>, ys: seq<int>)
    ensures xs == xs0 + DirSamples(entries)
    ensures ys == ys0 + Repeat(labelIdx, |xs| - |xs0|)
  {
    xs, ys := xs0, ys0;
    for e := 0 to |entries|
      invariant xs == xs0 + DirSamples(entries[..e])
      invariant |xs| >= |xs0| && ys == ys0 + Repeat(labelIdx, |xs| - |xs0|)
    {
      ghost var xs1, ys1 := xs, ys;
      var entry := entries[e];
      if EndsWith(entry.name, ".json") && entry.content.Sequences? {
        xs, ys := LoadFile(entry.content.recordings, labelIdx, xs, ys);
        RepeatConcat(labelIdx, |xs1| - |xs0|, |xs| - |xs1|, |xs| - |xs0|);
      }
      DirStep(entries, e, xs0, xs1, xs);
    }
    assert entries[..|entries|] == entries;
  }

  /** The body of the `with open(...)` block: each recording until one
      raises; keep it with the label when it has exactly 30 frames. */
  method LoadFile(rs: seq<Recording>, labelIdx: int, xs: seq<Sample>, ys: seq<int>)
    returns (xs': seq<Sample>, ys': seq<int>)
    ensures xs' == xs + FileSamples(Sequences(rs))
    ensures ys' == ys + Repeat(labelIdx, |xs'| - |xs|)
  {
    xs', ys' := xs, ys;
    var k := 0;
    while k < |rs|
      invariant k <= Readable(rs)
      invariant xs' == xs + Kept(rs[..k])
      invariant ys' == ys + Repeat(labelIdx, |xs'| - |xs|)
      decreases |rs| - k
    {
      if rs[k].Malformed? {
        break;
      }
      var framesData := ReadFrames(rs[k].frames);
      KeptStep(rs, k, framesData);
      ReadableNext(rs, k);
      if |framesData| == SEQUENCE_LENGTH {
        RepeatStep(labelIdx, |xs'| - |xs|, |xs'| + 1 - |xs|);
        xs' := xs' + [framesData];
        ys' := ys' + [labelIdx];
      }
      k := k + 1;
    }
    FileDone(rs, k);
  }

  /** The loop over `sequence['frames']`: one flattened row per frame. */
  method ReadFrames(frames: seq<Frame>) returns (framesData: Sample)
    ensures framesData == FrameRows(frames)
  {
    framesData := [];
    for t := 0 to |frames|
      invariant framesData == FrameRows(frames[..t])
    {
      FrameStep(frames, t);
      framesData := framesData + [Flatten(frames[t])];
    }
    assert frames[..|frames|] == frames;
  }

  lemma RepeatConcat(v: int, a: nat, b: nat, c: nat)
    requires c == a + b
    ensures Repeat(v, a) + Repeat(v, b) == Repeat(v, c)
  {
    assert Repeat(v, a) + Repeat(v, b) == Repeat(v, c);
  }

  lemma LoadStep(gs: seq<string>, i: nat, dirs: Directories, xs: seq<Sample>, ys: seq<int>)
    requires i < |gs| && Dataset(xs, ys) == Load(gs[..i], dirs)
    ensures Load(gs[..i + 1], dirs) ==
      var s := if gs[i] in dirs then DirSamples(dirs[gs[i]]) else [];
      Dataset(xs + s, ys + Repeat(i, |s|))
  {
    assert gs[..i + 1][..i] == gs[..i];
  }

  lemma FrameStep(frames: seq<Frame>, t: nat)
    requires t < |frames|
    ensures FrameRows(frames[..t + 1]) == FrameRows(frames[..t]) + [Flatten(frames[t])]
  {
    assert frames[..t + 1][..t] == frames[..t];
  }

  lemma KeptStep(rs: seq<Recording>, k: nat, rows: Sample)
    requires k < |rs| && rs[k].Recording? && rows == FrameRows(rs[k].frames)
    ensures |rows| == |rs[k].frames|
    ensures Kept(rs[..k + 1]) == Kept(rs[..k]) + if |rows| == SEQUENCE_LENGTH then [rows] else []
  {
    assert rs[..k + 1][..k] == rs[..k];
  }

  lemma ReadableNext(rs: seq<Recording>, k: nat)
    requires k <= Readable(rs) && k < |rs| && rs[k].Recording?
    ensures k + 1 <= Readable(rs)
  {
  }

  lemma RepeatStep(v: int, a: int, b: int)
    requires 0 <= a && b == a + 1
    ensures Repeat(v, b) == Repeat(v, a) + [v]
  {
  }

  lemma FileDone(rs: seq<Recording>, k: nat)
    requires k <= Readable(rs) && (k == |rs| || rs[k].Malformed?)
    ensures Kept(rs[..k]) == FileSamples(Sequences(rs))
  {
  }

  lemma DirStep(entries: seq<DirEntry>, e: nat, xs0: seq<Sample>, xs1: seq<Sample>, xs2: seq<Sample>)
    requires e < |entries| && xs1 == xs0 + DirSamples(entries[..e])
    requires xs2 == xs1 + if EndsWith(entries[e].name, ".json") then FileSamples(entries[e].content) else []
    ensures xs2 == xs0 + DirSamples(entries[..e + 1])
  {
    assert entries[..e + 1][..e] == entries[..e];
  }

  /** A sample is kept from a list of recordings exactly when some recording
      of it has SEQUENCE_LENGTH frames and the sample is its rows. */
  lemma {:induction false} KeptExactlyThirty(rs: seq<Recording>, x: Sample)
    ensures x in Kept(rs) <==>
      exists j :: 0 <= j < |rs| && rs[j].Recording? && |rs[j].frames| == SEQUENCE_LENGTH && x == FrameRows(rs[j].frames)
  {
    if rs != [] {
      var n := |rs| - 1;
      KeptExactlyThirty(rs[..n], x);
      if x in Kept(rs[..n]) {
        var j :| 0 <= j < n && rs[..n][j].Recording? && |rs[..n][j].frames| == SEQUENCE_LENGTH && x == FrameRows(rs[..n][j].frames);
        assert rs[j] == rs[..n][j];
      }
      if exists j :: 0 <= j < |rs| && rs[j].Recording? && |rs[j].frames| == SEQUENCE_LENGTH && x == FrameRows(rs[j].frames) {
        var j :| 0 <= j < |rs| && rs[j].Recording? && |rs[j].frames| == SEQUENCE_LENGTH && x == FrameRows(rs[j].frames);
        if j < n {
          assert rs[..n][j] == rs[j];
        }
      }
    }
  }

  /** Whatever follows a malformed recording is never looked at. */
  lemma {:induction false} MalformedEndsFile(rs: seq<Recording>, rest: seq<Recording>)
    requires Readable(rs) < |rs|
    ensures FileSamples(Sequences(rs + rest)) == FileSamples(Sequences(rs))
  {
    ReadableOfConcat(rs, rest);
    var n := Readable(rs);
    assert (rs + rest)[..n] == rs[..n];
  }

  lemma {:induction false} ReadableOfConcat(rs: seq<Recording>, rest: seq<Recording>)
    requires Readable(rs) < |rs|
    ensures Readable(rs + rest) == Readable(rs)
  {
    if !rs[0].Malformed? {
      assert (rs + rest)[1..] == rs[1..] + rest;
      ReadableOfConcat(rs[1..], rest);
    }
  }

  /** Every sample a gesture directory contributes has SEQUENCE_LENGTH rows. */
  lemma {:induction false} DirSamplesHaveThirtyFrames(entries: seq<DirEntry>)
    ensures forall x :: x in DirSamples(entries) ==> |x| == SEQUENCE_LENGTH
  {
    if entries != [] {
      var last := entries[|entries| - 1];
      DirSamplesHaveThirtyFrames(entries[..|entries| - 1]);
      if last.content.Sequences? {
        var rs := last.content.recordings;
        forall x | x in Kept(rs[..Readable(rs)]) ensures |x| == SEQUENCE_LENGTH {
          KeptExactlyThirty(rs[..Readable(rs)], x);
        }
      }
    }
  }

  /** Features and labels line up; every label is a gesture index; labels
      never decrease, since gestures are visited in list order. */
  lemma {:induction false} LoadLabels(gs: seq<string>, dirs: Directories)
    ensures |Load(gs, dirs).xs| == |Load(gs, dirs).ys|
    ensures forall k :: 0 <= k < |Load(gs, dirs).ys| ==> 0 <= Load(gs, dirs).ys[k] < |gs|
    ensures forall a, b :: 0 <= a <= b < |Load(gs, dirs).ys| ==> Load(gs, dirs).ys[a] <= Load(gs, dirs).ys[b]
  {
    if gs != [] {
      LoadLabels(gs[..|gs| - 1], dirs);
    }
  }

  /** Sample k comes from the directory of the gesture its label names, and
      has SEQUENCE_LENGTH rows. */
  lemma {:induction false} LoadSampleOrigin(gs: seq<string>, dirs: Directories)
    ensures forall k :: 0 <= k < |Load(gs, dirs).xs| && k < |Load(gs, dirs).ys| ==>
      var g := Load(gs, dirs).ys[k];
      0 <= g < |gs| && gs[g] in dirs && Load(gs, dirs).xs[k] in DirSamples(dirs[gs[g]]) &&
      |Load(gs, dirs).xs[k]| == SEQUENCE_LENGTH
  {
    if gs != [] {
      var n := |gs| - 1;
      LoadSampleOrigin(gs[..n], dirs);
      LoadLabels(gs[..n], dirs);
      var d := Load(gs[..n], dirs);
      var r := Load(gs, dirs);
      forall k | 0 <= k < |r.xs| && k < |r.ys|
        ensures var g := r.ys[k];
          0 <= g < |gs| && gs[g] in dirs && r.xs[k] in DirSamples(dirs[gs[g]]) &&
          |r.xs[k]| == SEQUENCE_LENGTH
      {
        if k < |d.xs| {
          assert r.xs[k] == d.xs[k] && r.ys[k] == d.ys[k];
          assert gs[..n][d.ys[k]] == gs[d.ys[k]];
        } else {
          DirSamplesHaveThirtyFrames(dirs[gs[n]]);
          assert r.ys[k] == n;
          assert r.xs[k] == DirSamples(dirs[gs[n]])[k - |d.xs|];
        }
      }
    }
  }
}
