/** The per-frame recogniser of the web app: the hand-landmark frame encoder,
    the 30-frame sliding window, the inference trigger and the 0.7 confidence
    gate (react-app/src/App.jsx, `onHandsResults` and `predictGesture`). */
module Recognizer {

  /** `SEQUENCE_LENGTH`: frames per window. */
  const SEQUENCE_LENGTH: nat := 30
  /** `CONFIDENCE_THRESHOLD`: the least probability that is shown. */
  const CONFIDENCE_THRESHOLD: real := 0.7
  /** Length of the zero padding that stands for an absent second hand. */
  const HAND_PADDING: nat := 63
  /** Landmarks per hand reported by the hand tracker. */
  const LANDMARKS_PER_HAND: nat := 21
  /** The row width of the tensor the classifier is fed: [1, 30, 126]. */
  const FRAME_WIDTH: nat := 126

  datatype Landmark = Landmark(x: real, y: real, z: real)

  type Hand = seq<Landmark>

  type Vector = seq<real>

  /** What the hand tracker passes to the result callback: either no
      `multiHandLandmarks` field at all, or the list of detected hands in
      detector order. */
  datatype HandsResult = NoLandmarks | Landmarks(hands: seq<Hand>)

  /** The outcome of running the classifier on a window: the probability
      array it returned, or an exception. */
  datatype Inference = Probabilities(p: seq<real>) | Failed

  /** What the prediction panel shows. */
  datatype Display = Display(prediction: string, confidence: real)

  // ---------------------------------------------------------------------
  // Frame encoder
  // ---------------------------------------------------------------------

  /** `handDetected`: the field is present and the list is non-empty. */
  predicate HandDetected(r: HandsResult) {
    r.Landmarks? && |r.hands| > 0
  }

  /** `hand.flatMap(lm => [lm.x, lm.y, lm.z])`. */
  function Flatten(h: Hand): (v: Vector)
    ensures |v| == 3 * |h|
    ensures forall i :: 0 <= i < |h| ==>
      v[3 * i] == h[i].x && v[3 * i + 1] == h[i].y && v[3 * i + 2] == h[i].z
  {
    if h == [] then [] else [h[0].x, h[0].y, h[0].z] + Flatten(h[1..])
  }

  function Zeros(n: nat): (v: Vector)
    ensures |v| == n && forall i :: 0 <= i < n ==> v[i] == 0.0
  {
    seq(n, _ => 0.0)
  }

  /** The encoded frame: the first hand flattened, then either 63 zeros (one
      hand) or the second hand flattened (two or more; later hands dropped). */
  function Encode(hands: seq<Hand>): (v: Vector)
    requires |hands| > 0
    ensures |v| >= 3 * |hands[0]| && v[..3 * |hands[0]|] == Flatten(hands[0])
    ensures |hands| == 1 ==>
      |v| == 3 * |hands[0]| + HAND_PADDING &&
      forall i :: 3 * |hands[0]| <= i < |v| ==> v[i] == 0.0
    ensures |hands| >= 2 ==> v[3 * |hands[0]|..] == Flatten(hands[1])
  {
    if |hands| == 1 then Flatten(hands[0]) + Zeros(HAND_PADDING)
    else Flatten(hands[0]) + Flatten(hands[1])
  }

  /** With 21 landmarks per hand, every encoded frame is 126 wide. */
  lemma EncodeWidth(hands: seq<Hand>)
    requires |hands| > 0
    requires forall i :: 0 <= i < |hands| ==> |hands[i]| == LANDMARKS_PER_HAND
    ensures |Encode(hands)| == FRAME_WIDTH
  {
    if |hands| >= 2 {
      assert |Encode(hands)| == |Encode(hands)[..63]| + |Encode(hands)[63..]|;
    }
  }

  /** Landmark k of hand j sits at offset 63 j + 3 k, coordinates in x, y, z
      order, for the two hands that are encoded. */
  lemma EncodeAt(hands: seq<Hand>, j: nat, k: nat)
    requires |hands| > 0 && j < 2 && j < |hands|
    requires |hands[0]| == LANDMARKS_PER_HAND && k < |hands[j]|
    ensures var v := Encode(hands); var o := 63 * j + 3 * k;
      o + 2 < |v| && v[o] == hands[j][k].x && v[o + 1] == hands[j][k].y && v[o + 2] == hands[j][k].z
  {
    var v := Encode(hands);
    if j == 0 {
      assert v[..63] == Flatten(hands[0]);
      assert v[3 * k] == v[..63][3 * k];
      assert v[3 * k + 1] == v[..63][3 * k + 1];
      assert v[3 * k + 2] == v[..63][3 * k + 2];
    } else {
      var f := Flatten(hands[1]);
      assert v[63..] == f;
      assert v[63 + 3 * k] == f[3 * k];
      assert v[63 + 3 * k + 1] == f[3 * k + 1];
      assert v[63 + 3 * k + 2] == f[3 * k + 2];
    }
  }

  /** Hands after the second never reach the encoder's output. */
  lemma EncodeIgnoresExtraHands(hands: seq<Hand>, extra: seq<Hand>)
    requires |hands| >= 2
    ensures Encode(hands + extra) == Encode(hands)
  {
    assert (hands + extra)[0] == hands[0] && (hands + extra)[1] == hands[1];
  }

  /** A second hand of 21 landmarks all at the origin is indistinguishable from
      no second hand: the padding is the same 63 zeros. */
  lemma ZeroSecondHandLooksLikeOneHand(h0: Hand, h1: Hand)
    requires |h1| == LANDMARKS_PER_HAND
    requires forall k :: 0 <= k < |h1| ==> h1[k] == Landmark(0.0, 0.0, 0.0)
    ensures Encode([h0, h1]) == Encode([h0])
  {
    var f := Flatten(h1);
    forall i | 0 <= i < |f| ensures f[i] == 0.0 {
      var k := i / 3;
      assert 0 <= k < |h1| && (i == 3 * k || i == 3 * k + 1 || i == 3 * k + 2);
      assert h1[k].x == 0.0 && h1[k].y == 0.0 && h1[k].z == 0.0;
      assert f[3 * k] == 0.0 && f[3 * k + 1] == 0.0 && f[3 * k + 2] == 0.0;
    }
    assert f == Zeros(HAND_PADDING);
  }

  // ---------------------------------------------------------------------
  // Sliding window
  // ---------------------------------------------------------------------

  /** `[...prev, v]`, then one `shift()` when the result is longer than 30. */
  function Slide(buffer: seq<Vector>, v: Vector): (r: seq<Vector>)
    ensures |buffer| <= SEQUENCE_LENGTH ==>
      |r| == if |buffer| < SEQUENCE_LENGTH then |buffer| + 1 else SEQUENCE_LENGTH
    ensures 0 < |r| <= |buffer| + 1 && r[|r| - 1] == v
    ensures r == (buffer + [v])[|buffer| + 1 - |r|..]
  {
    var pushed := buffer + [v];
    if |pushed| > SEQUENCE_LENGTH then pushed[1..] else pushed
  }

  /** The window after pushing `vs` one by one into an empty buffer. */
  function Window(vs: seq<Vector>): seq<Vector>
  {
    if vs == [] then [] else Slide(Window(vs[..|vs| - 1]), vs[|vs| - 1])
  }

  function Min(a: nat, b: nat): nat {
    if a < b then a else b
  }

  /** FIFO eviction: after k pushes the window holds exactly the last
      min(k, 30) vectors, oldest first. */
  lemma {:induction false} WindowIsSuffix(vs: seq<Vector>)
    ensures |Window(vs)| == Min(|vs|, SEQUENCE_LENGTH) <= SEQUENCE_LENGTH
    ensures Window(vs) == vs[|vs| - Min(|vs|, SEQUENCE_LENGTH)..]
  {
    if vs != [] {
      var n := |vs| - 1;
      WindowIsSuffix(vs[..n]);
      var prev := Window(vs[..n]);
      assert Window(vs) == Slide(prev, vs[n]);
      SlideSuffix(vs, prev, Slide(prev, vs[n]), SEQUENCE_LENGTH);
    }
  }

  /** Pushing the last element onto the last min(n, cap) of the first n
      elements, then keeping min(n + 1, cap), gives the last min(n + 1, cap). */
  lemma SlideSuffix<T>(vs: seq<T>, prev: seq<T>, r: seq<T>, cap: nat)
    requires vs != []
    requires prev == vs[..|vs| - 1][|vs| - 1 - Min(|vs| - 1, cap)..]
    requires |r| == Min(|vs|, cap)
    requires r == (prev + [vs[|vs| - 1]])[|prev| + 1 - |r|..]
    ensures r == vs[|vs| - Min(|vs|, cap)..]
  {
    var n, m := |vs| - 1, Min(|vs| - 1, cap);
    SuffixPush(vs, m);
    SuffixOfSuffix(vs, n - m, m + 1 - |r|);
  }

  /** The last m + 1 elements are the last m elements of all but the last,
      followed by the last. */
  lemma SuffixPush<T>(vs: seq<T>, m: nat)
    requires 0 < |vs| && m <= |vs| - 1
    ensures vs[..|vs| - 1][|vs| - 1 - m..] + [vs[|vs| - 1]] == vs[|vs| - 1 - m..]
  {
  }

  lemma SuffixOfSuffix<T>(s: seq<T>, a: nat, b: nat)
    requires a + b <= |s|
    ensures s[a..][b..] == s[a + b..]
  {
  }

  /** After pushing 29 vectors the window is one short of full; the 30th push
      fills it, and from then on every push keeps it full. */
  lemma WindowFullness(vs: seq<Vector>)
    ensures |Window(vs)| == SEQUENCE_LENGTH <==> |vs| >= SEQUENCE_LENGTH
  {
    WindowIsSuffix(vs);
  }

  /** A full window stays full after any push. */
  lemma StaysFull(buffer: seq<Vector>, v: Vector)
    requires |buffer| == SEQUENCE_LENGTH
    ensures |Slide(buffer, v)| == SEQUENCE_LENGTH
    ensures Slide(buffer, v) == buffer[1..] + [v]
  {
  }

  // ---------------------------------------------------------------------
  // Confidence gate
  // ---------------------------------------------------------------------

  /** `Math.max(...p)` for a non-empty array. */
  function MaxOf(p: seq<real>): (m: real)
    requires |p| > 0
    ensures m in p
    ensures forall j :: 0 <= j < |p| ==> p[j] <= m
  {
    if |p| == 1 then p[0]
    else var rest := MaxOf(p[1..]); if p[0] >= rest then p[0] else rest
  }

  /** `p.indexOf(m)`: the first index holding m, or -1. */
  function IndexOf(p: seq<real>, m: real): (k: int)
    ensures -1 <= k < |p|
    ensures k == -1 <==> m !in p
    ensures k >= 0 ==> p[k] == m && forall j :: 0 <= j < k ==> p[j] != m
  {
    if p == [] then -1
    else if p[0] == m then 0
    else var k := IndexOf(p[1..], m); if k == -1 then -1 else k + 1
  }

  /** k is the first position of the largest probability. */
  ghost predicate IsFirstMax(p: seq<real>, k: int) {
    0 <= k < |p| &&
    (forall j :: 0 <= j < |p| ==> p[j] <= p[k]) &&
    (forall j :: 0 <= j < k ==> p[j] < p[k])
  }

  /** `p.indexOf(Math.max(...p))`; -1 for an empty array, where `Math.max()`
      is -Infinity and is found nowhere. */
  function ArgMax(p: seq<real>): (k: int)
    ensures |p| == 0 ==> k == -1
    ensures |p| > 0 ==> IsFirstMax(p, k)
  {
    if |p| == 0 then -1 else IndexOf(p, MaxOf(p))
  }

  /** `labelsRef.current[maxIndex] || ''`. */
  function LabelOrEmpty(labels: map<int, string>, k: int): (s: string)
    ensures k in labels ==> s == labels[k]
    ensures k !in labels ==> s == ""
  {
    if k in labels then labels[k] else ""
  }

  /** The display after one classification: the label of the first maximum
      and its probability when that probability is at least 0.7, otherwise
      what was shown before. An empty array changes nothing. */
  function Gate(p: seq<real>, labels: map<int, string>, shown: Display): (d: Display)
    ensures |p| == 0 ==> d == shown
    ensures forall k | IsFirstMax(p, k) ::
      d == if p[k] >= CONFIDENCE_THRESHOLD then Display(LabelOrEmpty(labels, k), p[k]) else shown
  {
    var k := ArgMax(p);
    if 0 <= k && p[k] >= CONFIDENCE_THRESHOLD then Display(LabelOrEmpty(labels, k), p[k])
    else shown
  }

  /** Whatever is published has a confidence of at least 0.7 and is an entry
      of the probability array. */
  lemma GatePublishesOnlyConfident(p: seq<real>, labels: map<int, string>, shown: Display)
    requires Gate(p, labels, shown) != shown
    ensures Gate(p, labels, shown).confidence >= CONFIDENCE_THRESHOLD
    ensures Gate(p, labels, shown).confidence in p
  {
    var k := ArgMax(p);
    assert IsFirstMax(p, k);
  }

  /** `tf.tensor3d([sequence], [1, 30, 126])` followed by `predict`: the
      tensor constructor throws unless the window is 30 rows of 126 values,
      and the model itself may throw. */
  function Infer(classify: seq<Vector> -> Inference, window: seq<Vector>): (r: Inference)
    ensures !(|window| == SEQUENCE_LENGTH && forall i :: 0 <= i < |window| ==> |window[i]| == FRAME_WIDTH)
      ==> r == Failed
    ensures (|window| == SEQUENCE_LENGTH && forall i :: 0 <= i < |window| ==> |window[i]| == FRAME_WIDTH)
      ==> r == classify(window)
  {
    if |window| == SEQUENCE_LENGTH && forall i :: 0 <= i < |window| ==> |window[i]| == FRAME_WIDTH
    then classify(window) else Failed
  }

  /** `predictGesture` as seen from the display: a failed inference is caught
      and leaves the display unchanged; a result goes through the gate. */
  function Predict(r: Inference, labels: map<int, string>, shown: Display): (d: Display)
    ensures r.Failed? ==> d == shown
    ensures r.Probabilities? ==> d == Gate(r.p, labels, shown)
  {
    match r
    case Failed => shown
    case Probabilities(p) => Gate(p, labels, shown)
  }

  // ---------------------------------------------------------------------
  // The streaming state machine
  // ---------------------------------------------------------------------

  /** The state `onHandsResults` updates, with the loaded model and label
      table it reads. `classify` stands for the loaded model's `predict`. */
  class Recognizer {
    var sequenceBuffer: seq<Vector>
    var prediction: string
    var confidence: real
    var isHandDetected: bool
    const modelLoaded: bool
    const labels: map<int, string>
    const classify: seq<Vector> -> Inference

    ghost predicate Valid()
      reads this
    {
      |sequenceBuffer| <= SEQUENCE_LENGTH
    }

    function Shown(): Display
      reads this
    {
      Display(prediction, confidence)
    }

    /** The initial React state: empty buffer, empty prediction, confidence 0,
        no hand. */
    constructor (modelLoaded: bool, labels: map<int, string>, classify: seq<Vector> -> Inference)
      ensures Valid()
      ensures sequenceBuffer == [] && prediction == "" && confidence == 0.0 && !isHandDetected
      ensures this.modelLoaded == modelLoaded && this.labels == labels && this.classify == classify
    {
      sequenceBuffer := [];
      prediction := "";
      confidence := 0.0;
      isHandDetected := false;
      this.modelLoaded := modelLoaded;
      this.labels := labels;
      this.classify := classify;
    }

    /** One call of the result callback. `attempted` says whether the
        classifier was invoked on this frame. */
    method OnHandsResults(results: HandsResult) returns (attempted: bool)
      requires Valid()
      modifies this
      ensures Valid()
      ensures isHandDetected == HandDetected(results)
      ensures !HandDetected(results) ==>
        sequenceBuffer == old(sequenceBuffer) && prediction == "" && confidence == 0.0 && !attempted
      ensures HandDetected(results) ==>
        sequenceBuffer == Slide(old(sequenceBuffer), Encode(results.hands)) &&
        attempted == (|sequenceBuffer| == SEQUENCE_LENGTH && modelLoaded) &&
        Shown() == if attempted then Predict(Infer(classify, sequenceBuffer), labels, old(Shown()))
                   else old(Shown())
    {
      var handDetected := results.Landmarks? && |results.hands| > 0;
      isHandDetected := handDetected;
      attempted := false;
      if handDetected {
        var flattened := Encode(results.hands);
        var newBuffer := sequenceBuffer + [flattened];
        if |newBuffer| > SEQUENCE_LENGTH {
          newBuffer := newBuffer[1..];
        }
        if |newBuffer| == SEQUENCE_LENGTH && modelLoaded {
          attempted := true;
          PredictGesture(newBuffer);
        }
        sequenceBuffer := newBuffer;
      } else {
        prediction := "";
        confidence := 0.0;
      }
    }

    /** `predictGesture`: nothing without a model; otherwise classify the
        window and publish through the gate, keeping the display when the
        classifier throws. */
    method PredictGesture(sequence: seq<Vector>)
      modifies this`prediction, this`confidence
      ensures !modelLoaded ==> Shown() == old(Shown())
      ensures modelLoaded ==> Shown() == Predict(Infer(classify, sequence), labels, old(Shown()))
    {
      if !modelLoaded {
        return;
      }
      var outcome := Infer(classify, sequence);
      match outcome {
        case Failed =>
        case Probabilities(p) =>
          var maxIndex := ArgMax(p);
          if maxIndex >= 0 && p[maxIndex] >= CONFIDENCE_THRESHOLD {
            prediction := LabelOrEmpty(labels, maxIndex);
            confidence := p[maxIndex];
          }
      }
    }
  }

  // ---------------------------------------------------------------------
  // Whole traces
  // ---------------------------------------------------------------------

  /** The encoded vectors of the hand frames of a trace, in arrival order;
      no-hand frames contribute nothing. */
  function HandVectors(frames: seq<HandsResult>): (vs: seq<Vector>)
    ensures |vs| <= |frames|
  {
    if frames == [] then []
    else
      var last := frames[|frames| - 1];
      HandVectors(frames[..|frames| - 1]) + (if HandDetected(last) then [Encode(last.hands)] else [])
  }

  /** One more frame of a trace moves the window by exactly one slide when it
      holds a hand and not at all otherwise. */
  lemma WindowStep(frames: seq<HandsResult>, i: nat)
    requires i < |frames|
    ensures HandDetected(frames[i]) ==>
      Window(HandVectors(frames[..i + 1])) == Slide(Window(HandVectors(frames[..i])), Encode(frames[i].hands))
    ensures !HandDetected(frames[i]) ==>
      Window(HandVectors(frames[..i + 1])) == Window(HandVectors(frames[..i]))
  {
    var before := HandVectors(frames[..i]);
    assert frames[..i + 1][..i] == frames[..i];
    if HandDetected(frames[i]) {
      var v := Encode(frames[i].hands);
      assert HandVectors(frames[..i + 1]) == before + [v];
      assert (before + [v])[..|before|] == before;
    } else {
      assert HandVectors(frames[..i + 1]) == before;
    }
  }

  /** Feeds a recorded trace of frames to a fresh recogniser. The window
      afterwards is the last min(k, 30) encoded hand frames, where k counts
      the hand frames; nothing older survives, and no-hand frames in between
      leave no trace in it. */
  method Replay(modelLoaded: bool, labels: map<int, string>, classify: seq<Vector> -> Inference,
                frames: seq<HandsResult>)
    returns (r: Recognizer, attempts: nat)
    ensures r.Valid()
    ensures r.sequenceBuffer == Window(HandVectors(frames))
    ensures var vs := HandVectors(frames);
      r.sequenceBuffer == vs[|vs| - Min(|vs|, SEQUENCE_LENGTH)..]
    ensures attempts <= |frames|
    ensures !modelLoaded ==> attempts == 0
  {
    r := new Recognizer(modelLoaded, labels, classify);
    attempts := 0;
    var i := 0;
    while i < |frames|
      invariant 0 <= i <= |frames|
      invariant r.Valid()
      invariant r.sequenceBuffer == Window(HandVectors(frames[..i]))
      invariant attempts <= i && (!modelLoaded ==> attempts == 0)
    {
      var attempted := ReplayStep(r, frames, i);
      attempts := attempts + if attempted then 1 else 0;
      i := i + 1;
    }
    assert frames[..i] == frames;
    ghost var vs := HandVectors(frames);
    assert r.sequenceBuffer == Window(vs);
    WindowIsSuffix(vs);
  }

  /** One frame of `Replay`: the window after the frame is the window of the
      trace one frame longer. */
  method ReplayStep(r: Recognizer, frames: seq<HandsResult>, i: nat) returns (attempted: bool)
    requires i < |frames| && r.Valid() && r.sequenceBuffer == Window(HandVectors(frames[..i]))
    modifies r
    ensures r.Valid() && r.sequenceBuffer == Window(HandVectors(frames[..i + 1]))
    ensures attempted ==> r.modelLoaded
  {
    attempted := r.OnHandsResults(frames[i]);
    WindowStep(frames, i);
  }

  /** A classifier that is 95% sure of class 0 on every window. */
  function ConfidentOfFirst(window: seq<Vector>): (r: Inference)
  {
    Probabilities([0.95, 0.05])
  }

  /** n frames of one hand into an empty recogniser fill n places of the
      window and, short of a full window, attempt no inference and show
      nothing. */
  method FillWindow(r: Recognizer, hand: Hand, n: nat) returns (attempts: nat)
    requires |hand| == LANDMARKS_PER_HAND && n < SEQUENCE_LENGTH
    requires r.Valid() && r.sequenceBuffer == [] && r.Shown() == Display("", 0.0)
    modifies r
    ensures r.Valid() && |r.sequenceBuffer| == n && r.Shown() == Display("", 0.0)
    ensures forall k :: 0 <= k < |r.sequenceBuffer| ==> |r.sequenceBuffer[k]| == FRAME_WIDTH
    ensures attempts == 0
  {
    EncodeWidth([hand]);
    attempts := 0;
    var i := 0;
    while i < n
      invariant 0 <= i <= n && attempts == 0
      invariant r.Valid() && |r.sequenceBuffer| == i
      invariant forall k :: 0 <= k < |r.sequenceBuffer| ==> |r.sequenceBuffer[k]| == FRAME_WIDTH
      invariant r.Shown() == Display("", 0.0)
    {
      PushWidths(r.sequenceBuffer, Encode([hand]));
      var attempted := r.OnHandsResults(Landmarks([hand]));
      attempts := attempts + if attempted then 1 else 0;
      i := i + 1;
    }
  }

  /** A frame as wide as the buffered ones keeps them all of that width. */
  lemma PushWidths(buffer: seq<Vector>, v: Vector)
    requires |v| == FRAME_WIDTH
    requires forall k :: 0 <= k < |buffer| ==> |buffer[k]| == FRAME_WIDTH
    ensures forall k :: 0 <= k < |buffer + [v]| ==> |(buffer + [v])[k]| == FRAME_WIDTH
  {
    var pushed := buffer + [v];
    forall k | 0 <= k < |pushed| ensures |pushed[k]| == FRAME_WIDTH {
      if k < |buffer| {
        assert pushed[k] == buffer[k];
      }
    }
  }

  /** The scenario of a dropout: thirty frames of one hand fill the window and
      a confident classification of "Đau" at 0.95 is shown; the no-hand frame
      that follows clears the shown label, its confidence and the presence
      flag, and keeps every buffered frame. */
  method DropoutScenario(hand: Hand) returns (inferencesBeforeFull: nat, inferredWhenFull: bool,
                                              shownWhenFull: Display, shownAfterDropout: Display,
                                              detectedAfterDropout: bool, bufferKept: bool)
    requires |hand| == LANDMARKS_PER_HAND
    ensures inferencesBeforeFull == 0 && inferredWhenFull
    ensures shownWhenFull == Display("Đau", 0.95)
    ensures shownAfterDropout == Display("", 0.0)
    ensures !detectedAfterDropout && bufferKept
  {
    var r := new Recognizer(true, map[0 := "Đau"], ConfidentOfFirst);
    inferencesBeforeFull := FillWindow(r, hand, SEQUENCE_LENGTH - 1);
    inferredWhenFull := CompleteWindow(r, hand);
    shownWhenFull := r.Shown();
    var before := r.sequenceBuffer;
    var attempted := r.OnHandsResults(NoLandmarks);
    shownAfterDropout := r.Shown();
    detectedAfterDropout := r.isHandDetected;
    bufferKept := r.sequenceBuffer == before;
  }

  /** The thirtieth hand frame completes the window, and the classifier that
      is sure of class 0 makes it show "Đau" at 0.95. */
  method CompleteWindow(r: Recognizer, hand: Hand) returns (attempted: bool)
    requires |hand| == LANDMARKS_PER_HAND
    requires r.modelLoaded && r.labels == map[0 := "Đau"] && r.classify == ConfidentOfFirst
    requires r.Valid() && |r.sequenceBuffer| == SEQUENCE_LENGTH - 1
    requires forall k :: 0 <= k < |r.sequenceBuffer| ==> |r.sequenceBuffer[k]| == FRAME_WIDTH
    modifies r
    ensures attempted && r.Valid() && r.Shown() == Display("Đau", 0.95)
  {
    EncodeWidth([hand]);
    ghost var window := r.sequenceBuffer + [Encode([hand])];
    assert Slide(r.sequenceBuffer, Encode([hand])) == window;
    assert forall k :: 0 <= k < |window| ==> |window[k]| == FRAME_WIDTH;
    attempted := r.OnHandsResults(Landmarks([hand]));
    assert r.sequenceBuffer == window;
    assert IsFirstMax([0.95, 0.05], 0);
  }
}
