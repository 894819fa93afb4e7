# V-Sign AI core, modelled in Dafny

V-Sign AI recognises Vietnamese sign-language gestures from hand landmarks.
This project models five pieces of it:

- **The recogniser in the web app** (`react-app/src/App.jsx`), in `recognizer.dfy`.
  - Each hand-tracker result is encoded into a 126-wide frame vector: first hand, then second hand or 63 zeros.
  - The vector is pushed into a 30-frame sliding window.
  - Once the window is full and a model is loaded, the window is classified.
  - The first maximum of the probabilities is shown only when it is at least 0.7.
  - A frame without a hand clears the shown prediction and keeps the window.
  - The component state is a class, `Recognizer.Recognizer`, with the fields the handler updates.
- **The gesture manager** (`add_new_gesture.py`), in `gesture_list.dfy`.
  - It reads the `GESTURES = [...]` literal out of the training script.
  - It writes a list back into both scripts and rewrites `NUM_CLASSES = <n>`.
  - It builds the `{str(i): name}` label map.
  - It adds a typed name only when that name is non-empty and new.
- **The training data plumbing** (`train_model.py`), in `dataset.dfy`.
  - `augment_dataset` keeps every original, followed by factor−1 copies made by an uninterpreted augmenter. Labels are carried over.
  - `load_dataset` walks the gesture directories and their `.json` files, and keeps the sequences of exactly 30 frames. The label of each kept sequence is its gesture's index.
- **The sample generator** (`generate_sample_data.py`), in `sample_data.dfy`.
  - The person and sequence ids, and the `person{p}_seq{sss}.json` file names.
  - The 30×21 shape of a pattern.
  - The partition of landmark indices into wrist and fingers.
  - One file per sample, holding one 1000 ms sequence.
- **The model converter** (`convert_to_tfjs.py`), in `converter.dfy`.
  - It returns early when the model file is missing.
  - It picks a B/KB/MB unit for each generated file.
  - It writes the integer-keyed label map and the metadata, whose `num_classes` is the list length.

`decimal.dfy` holds the decimal rendering of naturals that Python's `str(n)`, f-strings and `{:03d}` perform, with their read-back and injectivity lemmas.

On a frame without a hand, the handler (`react-app/src/App.jsx:212-218`) keeps the window and clears the prediction and the confidence, as its comment at lines 213-215 says. The model follows it. A shown value survives only a classification below the 0.7 threshold.

Randomness, files and hardware are parameters of the model:
- the classifier is a function from a window to an `Inference`;
- the label table of the app is a `map<int, string>`;
- the augmenter and the generator's base positions and noise are functions;
- the directory listing is a sequence of entries;
- a file's content is either its parsed sequences or unreadable.

## Model

| member | source | states |
|---|---|---|
| Decimal.NatToString | generate_sample_data.py:164 | the decimal text of n is non-empty, all digits, and has no leading zero |
| Decimal.NatToStringValue | generate_sample_data.py:164 | the decimal text of n reads back as n |
| Decimal.NatToStringInjective | generate_sample_data.py:164 | different numbers have different decimal texts |
| Decimal.ZeroPad | generate_sample_data.py:164 | `{:03d}` padding gives the longer of width and the text's length, ends with the text, and has only zeros before it |
| Decimal.ZeroPadValue | generate_sample_data.py:164 | a zero-padded number is all digits and reads back as the number |
| Recognizer.HandDetected | react-app/src/App.jsx:178 | defines when a result shows a hand: its landmark list is present and non-empty. `OnHandsResults` sets the detection flag to exactly this |
| Recognizer.Flatten | react-app/src/App.jsx:186 | 3 values per landmark, with landmark i's x, y, z at 3i, 3i+1, 3i+2 |
| Recognizer.Encode | react-app/src/App.jsx:185-193 | the frame starts with hand 0 flattened; one hand is followed by exactly 63 zeros; two or more hands are followed by hand 1 flattened |
| Recognizer.EncodeWidth | react-app/src/App.jsx:185-193 | with 21 landmarks per hand the encoded frame is 126 wide |
| Recognizer.EncodeAt | react-app/src/App.jsx:185-193 | landmark k of hand j (j < 2) sits at 63j + 3k, in x, y, z order |
| Recognizer.EncodeIgnoresExtraHands | react-app/src/App.jsx:189-193 | hands after the second do not change the encoding |
| Recognizer.ZeroSecondHandLooksLikeOneHand | react-app/src/App.jsx:185-193 | a second hand of 21 origin landmarks encodes like one hand with padding |
| Recognizer.Slide | react-app/src/App.jsx:195-203 | after a push the window grows by one up to 30, stays at 30 when full, ends with the new vector, and is a suffix of old window + vector |
| Recognizer.Window | react-app/src/App.jsx:195-203 | defines the buffer after the vectors are pushed one by one from empty. `WindowIsSuffix` and `WindowFullness` state what it holds |
| Recognizer.WindowIsSuffix | react-app/src/App.jsx:195-203 | after k pushes from empty the window is exactly the last min(k, 30) vectors in arrival order |
| Recognizer.WindowFullness | react-app/src/App.jsx:195-205 | the window is full exactly when at least 30 vectors have been pushed |
| Recognizer.StaysFull | react-app/src/App.jsx:201-205 | a full window stays full: the oldest vector is dropped and the new one is appended |
| Recognizer.MaxOf | react-app/src/App.jsx:267 | `Math.max` is an element and bounds every element |
| Recognizer.IndexOf | react-app/src/App.jsx:267 | `indexOf` is -1 exactly when the value is absent, and otherwise the first position holding it |
| Recognizer.ArgMax | react-app/src/App.jsx:267 | the index is the first position of the greatest probability, or -1 for an empty array |
| Recognizer.LabelOrEmpty | react-app/src/App.jsx:269-283 | the label at the index, or '' when the table has no entry there |
| Recognizer.Gate | react-app/src/App.jsx:267-290 | with first maximum k, if p[k] >= 0.7 the display becomes (label k, p[k]), otherwise it is unchanged; an empty array changes nothing |
| Recognizer.GatePublishesOnlyConfident | react-app/src/App.jsx:273-290 | a changed display has confidence at least 0.7, and that confidence is one of the probabilities |
| Recognizer.Infer | react-app/src/App.jsx:262-265 | a window that is not 30 rows of 126 values fails; otherwise the result is the classifier's |
| Recognizer.Predict | react-app/src/App.jsx:261-297 | a failed inference leaves the display unchanged; otherwise the gate decides |
| Recognizer.Recognizer.constructor | react-app/src/App.jsx:27-33 | empty buffer, empty prediction, confidence 0, no hand detected |
| Recognizer.Recognizer.OnHandsResults | react-app/src/App.jsx:175-219 | the detection flag is exactly "present and non-empty". A no-hand frame keeps the buffer, clears prediction and confidence to '' and 0, and attempts nothing. A hand frame slides the encoded frame in, attempts inference iff the new buffer holds 30 and a model is loaded, and then shows the gated result |
| Recognizer.Recognizer.PredictGesture | react-app/src/App.jsx:258-298 | nothing changes without a model; otherwise the display becomes the gated result of the inference, and is unchanged if the inference fails |
| Recognizer.WindowStep | react-app/src/App.jsx:178-211 | one frame moves the window by one slide if it holds a hand and leaves it alone otherwise |
| Recognizer.HandVectors | react-app/src/App.jsx:175-211 | the encoded frames of a trace's hand frames, in arrival order, no more than the frames. `Replay` proves the buffer is their window |
| Recognizer.Replay | react-app/src/App.jsx:175-219 | after any trace the buffer is the last min(k, 30) encoded hand frames (k = hand frames), never longer than 30; no model means no inference |
| Recognizer.FillWindow | react-app/src/App.jsx:195-205 | fewer than 30 frames of one hand fill that many places of the window, all 126 wide; no inference is attempted on any of them and nothing is shown |
| Recognizer.CompleteWindow | react-app/src/App.jsx:195-290 | the thirtieth frame completes the window and inference is attempted on it; a classifier 95% sure of class 0 makes the display show label 0 at 0.95 |
| Recognizer.DropoutScenario | react-app/src/App.jsx:195-218 | no inference runs on frames 1-29 and one runs on frame 30; the confident classification it shows is cleared by the next no-hand frame, and the buffer is kept |
| GestureList.Find | add_new_gesture.py:15 | the first occurrence of the pattern at or after the start, or -1 when there is none |
| GestureList.MatchGestures | add_new_gesture.py:15 | the leftmost `GESTURES = [` followed by its first `]`; no match when there is none |
| GestureList.MatchGesturesUnique | add_new_gesture.py:15 | the leftmost literal match is the one the search reports |
| GestureList.Split | add_new_gesture.py:17 | the pieces joined with the separator give back the text, and no piece holds the separator |
| GestureList.SplitAtSep | add_new_gesture.py:17 | splitting at a separator yields the part before it, followed by the split of the rest |
| GestureList.TrimStart | add_new_gesture.py:17 | drops exactly the leading characters of the set |
| GestureList.TrimEnd | add_new_gesture.py:17 | drops exactly the trailing characters of the set |
| GestureList.Strip | add_new_gesture.py:17 | the result neither begins nor ends with a stripped character, and is empty iff every character is stripped |
| GestureList.ParseItems | add_new_gesture.py:17 | the comprehension keeps at most one name per piece, and it keeps none exactly when every piece is blank after stripping. `ParsePieces` proves it gives back written names |
| GestureList.Parse | add_new_gesture.py:15-18 | without a `GESTURES = [...]` literal the list is empty |
| GestureList.ParseQuotedList | add_new_gesture.py:17-22 | splitting and stripping the quoted, comma-joined names gives back the names, when they hold no comma, quote, `]` or backslash |
| GestureList.SplitQuotedList | add_new_gesture.py:17-22 | splitting a written list at its commas cuts it into one piece per name: the first quoted after the leading text, each later one after the space written after its comma |
| GestureList.ParsePieces | add_new_gesture.py:17 | stripping whitespace and then quotes from each piece gives back the names, in order |
| GestureList.Item | add_new_gesture.py:22 | defines a name between single quotes. `ParseOnePiece` reads it back |
| GestureList.QuotedList | add_new_gesture.py:22 | defines the quoted names joined with ", ". `ParseQuotedList` proves that splitting and stripping give them back, and `QuotedListKeyFree` that it holds `NUM_CLASSES = ` only where a name does |
| GestureList.QuotedListKeyFree | add_new_gesture.py:22 | the written list holds `NUM_CLASSES = ` only where a listed name does |
| GestureList.Format | add_new_gesture.py:22 | the written list is bracketed |
| GestureList.SubGestures | add_new_gesture.py:27-35 | defines `re.sub` of every `GESTURES = [...]` match, left to right. `SubGesturesShape`, `RewrittenMatch` and `ParseAfterSubGestures` state what it writes |
| GestureList.Replacement | add_new_gesture.py:27 | defines `GESTURES = ` followed by the formatted list. `ReplacementShape` states it is the literal, the quoted list and `]` |
| GestureList.SubGesturesShape | add_new_gesture.py:27-35 | the rewrite keeps the text before the first literal and puts the quoted list and `]` right after `GESTURES = [` |
| GestureList.RewrittenMatch | add_new_gesture.py:15-35 | in the rewritten script the leftmost literal starts where the old one did and encloses exactly the written list |
| GestureList.SubGesturesUnfold | add_new_gesture.py:27-35 | one step of the rewrite: the text before the first literal, then `GESTURES = [`, the quoted list and `]`, then the rewrite of what followed the old `]` |
| GestureList.SubGesturesSplit | add_new_gesture.py:27-35 | the rewrite is the text before the first literal, then `GESTURES = [`, the quoted list and `]`, followed by some text |
| GestureList.ParseAfterSubGestures | add_new_gesture.py:15-35 | round trip: reading a script after the list is written into it gives the list |
| GestureList.FindNum | add_new_gesture.py:28 | the first `NUM_CLASSES = <digit>` position, or -1 |
| GestureList.DigitsEnd | add_new_gesture.py:28 | `\d+` takes the longest run of digits |
| GestureList.NumReplacement | add_new_gesture.py:28 | the replacement is `NUM_CLASSES = ` followed by exactly the decimal text of n |
| GestureList.SubNumClasses | add_new_gesture.py:28 | the rewrite is empty only for an empty script and keeps the first character |
| GestureList.ReadNumClasses | add_new_gesture.py:28 | a script states a number iff it holds `NUM_CLASSES = <digit>` |
| GestureList.ReadAfterSubNumClasses | add_new_gesture.py:28 | after the rewrite the script states exactly n classes |
| GestureList.SubNumOne | add_new_gesture.py:28 | in a script with one key followed by digits and no other `N`, exactly that number is replaced |
| GestureList.NumRewriteReachesList | add_new_gesture.py:27-28 | counterexample. A training script holding only `GESTURES = []` is given the clean list ['NUM_CLASSES = 7']. After both rewrites it reads back as ['NUM_CLASSES = 1'], not as the list |
| GestureList.SubNumKeepsLiteral | add_new_gesture.py:27-28 | the NUM_CLASSES rewrite leaves a written block whole and puts no literal in front of it. The block must hold no key, start with `G` and end with `]` |
| GestureList.TrainReadsBack | add_new_gesture.py:15-28 | if no listed name holds `NUM_CLASSES = `, the training script reads back as the list after both rewrites |
| GestureList.LabelMap | add_new_gesture.py:40 | key str(i) maps to name i for every index i, and every key is str(i) for some index |
| GestureList.AppendFreshNoDuplicates | add_new_gesture.py:53-54 | appending a name that is not listed keeps the list free of repeats |
| GestureList.UpdateAllFiles | add_new_gesture.py:20-43 | the converter script is the list rewrite of the old one, so a script without a literal is left alone and the text around the literal is kept. For clean names and a script that holds a literal, it reads back as the list. The training script is the NUM_CLASSES rewrite of the list rewrite. It states len classes when it holds the key, and is left as the list rewrite otherwise. It reads back as the list when no name holds `NUM_CLASSES = `. The label map is written |
| GestureList.AddNewGesture | add_new_gesture.py:47-61 | a name is added iff it is non-empty after stripping and not yet listed. The list then grows by that name at the end and stays free of repeats. The `dataset/<name>` folder and label map follow. The converter script is the list rewrite of the old one, and it reads back as the new list for clean names and a script holding a literal. The training script gets both rewrites and states the new count when it holds the key. It reads back as the new list when no name holds `NUM_CLASSES = `. Otherwise nothing is written |
| Dataset.Copies | train_model.py:147-155 | the block size per original is max(factor, 1) |
| Dataset.AugmentedCopies | train_model.py:153-155 | k copies, the t-th being the augmenter applied to the sample at call count c + t |
| Dataset.Repeat | train_model.py:150-155 | k copies of the label |
| Dataset.AugmentDataset | train_model.py:138-157 | the output is the loop-free layout of originals and copies, and of their labels |
| Dataset.AugmentedSamples | train_model.py:147-155 | defines the loop-free output: each original followed by factor−1 copies, with the augmenter's counter advancing by factor−1 per original. `AugmentDataset` computes it and `AugmentedSamplesLayout` states its blocks |
| Dataset.AugmentedLabels | train_model.py:150-155 | defines each label repeated factor times. `AugmentedLabelsLayout` states its blocks |
| Dataset.AugmentedSamplesLength | train_model.py:147-155 | the output holds len(X) × max(factor, 1) samples |
| Dataset.AugmentedSamplesLayout | train_model.py:147-155 | block i is X[i] followed by its factor−1 augmented copies, so originals keep their order |
| Dataset.AugmentedLabelsLength | train_model.py:150-155 | the label output has the same length as the sample output |
| Dataset.AugmentedLabelsLayout | train_model.py:150-155 | every position of block i carries y[i] |
| Dataset.FactorOneKeepsSamples | train_model.py:153 | a factor of at most 1 returns the samples unchanged |
| Dataset.FactorOneKeepsLabels | train_model.py:153 | a factor of at most 1 returns the labels unchanged |
| Dataset.FrameRows | train_model.py:81-86 | one row per frame, each the frame's landmarks flattened in x, y, z order |
| Dataset.Readable | train_model.py:72-97 | the recordings before the first malformed one, whose error abandons the rest of the file |
| Dataset.Kept | train_model.py:88-94 | defines the recordings of 30 frames, in order. `KeptExactlyThirty` states the keep condition |
| Dataset.FileSamples | train_model.py:72-97 | defines a file's kept sequences up to its first malformed one, and nothing for an unreadable file. `MalformedEndsFile` states the cut |
| Dataset.DirSamples | train_model.py:70-97 | defines the `.json` files' samples in listing order. `DirSamplesHaveThirtyFrames` states their length |
| Dataset.Load | train_model.py:62-97 | defines the gestures in order, with each existing directory's samples labelled with the gesture's index. `LoadDataset` computes it; `LoadLabels` and `LoadSampleOrigin` state its labels and origins |
| Dataset.LoadDataset | train_model.py:62-97 | the loops build exactly the dataset `Load` describes |
| Dataset.LoadDir | train_model.py:70-97 | one gesture directory contributes the kept sequences of its `.json` files in listing order, each labelled with the gesture index |
| Dataset.LoadFile | train_model.py:72-97 | one file contributes its kept sequences, each labelled with the gesture index |
| Dataset.ReadFrames | train_model.py:78-86 | the frame loop produces the flattened rows |
| Dataset.KeptExactlyThirty | train_model.py:88-94 | a sequence is kept iff it is a recording of exactly 30 frames |
| Dataset.MalformedEndsFile | train_model.py:72-97 | nothing after a malformed sequence of a file is loaded |
| Dataset.ReadableOfConcat | train_model.py:72-97 | recordings appended after a malformed one do not change where a file's readable prefix ends |
| Dataset.DirSamplesHaveThirtyFrames | train_model.py:70-94 | every sample loaded from a directory has 30 frames |
| Dataset.LoadLabels | train_model.py:62-91 | as many labels as samples, each a gesture index, non-decreasing in GESTURES order |
| Dataset.LoadSampleOrigin | train_model.py:62-97 | sample k has 30 frames and comes from the directory of gesture ys[k], which exists |
| SampleData.PersonId | generate_sample_data.py:145 | i // 10 + 1: the person id p satisfies 10(p−1) <= i < 10p |
| SampleData.SeqId | generate_sample_data.py:146 | i % 10 + 1 is in 1..10, and with the person id it rebuilds i |
| SampleData.IdsDetermineSample | generate_sample_data.py:145-146 | distinct indices give distinct (person, seq) pairs |
| SampleData.IdRanges | generate_sample_data.py:143-146 | for 50 samples the person id is in 1..5 and the seq id in 1..10 |
| SampleData.Filename | generate_sample_data.py:164 | the name has at least prefix, digit, `_seq`, three digits and `.json` |
| SampleData.PersonTag | generate_sample_data.py:154 | `person` followed by the person id's digits |
| SampleData.SeqFieldWidth | generate_sample_data.py:164 | the padded sequence number is exactly 3 characters |
| SampleData.FilenameFields | generate_sample_data.py:164 | equal file names have equal person digits and equal padded seq digits |
| SampleData.FilenameInjective | generate_sample_data.py:145-164 | different sample indices give different file names |
| SampleData.GroupOf | generate_sample_data.py:77-103 | defines the branch a landmark index takes: 0 wrist, 1-4 thumb, 5-8 index, 9-12 middle, 13-16 ring, the rest pinky. `GroupsPartitionHand` and `GroupsCoverHand` state the partition |
| SampleData.GroupsPartitionHand | generate_sample_data.py:77-103 | each index 0..20 lies in exactly one group |
| SampleData.GroupsCoverHand | generate_sample_data.py:77-103 | the groups' sizes add up to 21 and each group starts where the previous one ends |
| SampleData.HandShape | generate_sample_data.py:77-103 | every landmark keeps the base depth, and the wrist is the base |
| SampleData.JointSpacing | generate_sample_data.py:79-103 | successive thumb joints step 0.02 in x; successive finger joints step −0.025 in y |
| SampleData.Jitter | generate_sample_data.py:105-108 | each coordinate moves by exactly its noise |
| SampleData.GenerateGesturePattern | generate_sample_data.py:30-120 | the nested loops build exactly the pattern `GesturePattern` describes |
| SampleData.GesturePattern | generate_sample_data.py:30-120 | defines the 30 frames of 21 jittered landmarks of the hand shape. `GenerateGesturePattern` computes it and `PatternShape` states its shape |
| SampleData.PatternShape | generate_sample_data.py:32-118 | 30 frames of 21 landmarks, each frame's wrist being its jittered base |
| SampleData.FileFor | generate_sample_data.py:152-161 | a file holds one sequence of 1000 ms |
| SampleData.GenerateDataset | generate_sample_data.py:135-168 | 50 files per gesture, file k being sample k % 50 of gesture k / 50 |
| SampleData.FilesDoNotCollide | generate_sample_data.py:139-165 | with distinct gestures no two generated files share directory and name |
| Converter.LabelMap | convert_to_tfjs.py:92 | exactly len(GESTURES) entries, with i mapped to GESTURES[i] and no other keys |
| Converter.JsonKeys | convert_to_tfjs.py:94-96 | the written label file keys each entry by the decimal text of its index, and has no other keys |
| Converter.LabelFilesAgree | convert_to_tfjs.py:92-96 | the converter's label file equals the gesture manager's for the same list |
| Converter.UnitOf | convert_to_tfjs.py:82-87 | defines the unit picked for a size: B below 1024, KB below 1048576, MB otherwise. `UnitRanges` states the ranges |
| Converter.UnitRanges | convert_to_tfjs.py:82-87 | B iff size < 1024; KB iff 1024 <= size < 1048576; MB iff size >= 1048576; exactly one applies |
| Converter.SizeString | convert_to_tfjs.py:82-87 | the text's kind follows the unit; KB and MB carry the size divided by 1024 and 1048576 |
| Converter.BytesShowSize | convert_to_tfjs.py:83 | in bytes the displayed number is the integer size, followed by " B" |
| Converter.ListGeneratedFiles | convert_to_tfjs.py:77-89 | one line per listed file, with its name and size text |
| Converter.Join | convert_to_tfjs.py:78-114 | `os.path.join`: an absolute second part wins; otherwise the result starts with the first part and ends with the second |
| Converter.ModelMetadata | convert_to_tfjs.py:101-112 | the metadata lists the gestures, and its num_classes is their number |
| Converter.ConvertToTfjs | convert_to_tfjs.py:44-116 | a missing model does nothing and writes nothing. Otherwise it creates the directory, saves the model, lists the files, and writes the label map and then the metadata into the directory |
| Converter.LabelsMatchMetadata | convert_to_tfjs.py:92-106 | the label file has num_classes entries, all class indices |
| Converter.AppReadsConverterLabels | react-app/src/App.jsx:269 | the app's lookup of class k in the converter's label table gives gesture k, and '' outside the list |

## Left out

- Hand tracker, camera, canvas drawing and webcam wiring (`react-app/src/App.jsx:104-172`, `222-256`): browser and library I/O. Hand results enter as `HandsResult` values.
- The FPS counter (`react-app/src/App.jsx:146-163`): timers and animation frames.
- Model loading, warm-up, the `fetch` of the label file, and tensor disposal (`react-app/src/App.jsx:43-102`, `292-293`). The loaded model is the `classify` function and the loaded labels are the `labels` map. A missing model is the `modelLoaded` flag.
- The asynchrony of `predictGesture` and React's batching of state updates. The gate runs synchronously right after the push.
- Floating point: landmarks and probabilities are reals, so NaN and Infinity are not modelled.
- JavaScript's conversion of the numeric index to the JSON label file's string key is folded into the `map<int, string>` table. `Converter.JsonKeys` and `Converter.AppReadsConverterLabels` connect the two.
- The UI components and the build configuration: presentation only.
- Keras model construction, training, evaluation and plotting in `train_model.py`: machine-learning library calls.
- `augment_sequence` and the generator's random coordinates:
  - the augmenter is an uninterpreted function of the sample and a call counter;
  - the base position per frame and the noise per landmark are functions;
  - the gesture-specific base movement of `generate_gesture_pattern` (lines 40-72) is part of the base function.
- The TF.js conversion and the model summary in `convert_to_tfjs.py`. They appear only as the `SaveModel` effect. `convert_without_quantization` is not part of this model.
- Converter.SizeString: the `.2f` rendering of kilobytes and megabytes is not modelled. The text carries the exact quotient instead.
- File reading and writing and JSON encoding:
  - scripts are strings;
  - the label file is a map;
  - a data file is its parsed recordings or `Unreadable`;
  - the converter's writes are `Effect` values;
  - `makedirs` in the gesture manager is the `folder` of the outcome.
- The regular expressions are modelled only for the two patterns used: the literal, the lazy `.*?` up to the first `]` under DOTALL, and `\d+`.
  - `\d` is modelled on ASCII digits only. Python also accepts other Unicode decimal digits.
- GestureList.SubGestures: the model writes a name holding `\` literally. `re.sub` at `add_new_gesture.py:27` and `:35` reads the replacement as a template. There `\n`, `\t` and `\\` are expanded, while `\q` and `\1` raise `re.error`.
- GestureList.AddNewGesture: for a name holding a bad escape such as `\q` or `\1`, the program creates the folder (line 56) and then raises at line 27, before any script is written. The model reports `Added` with the name written as is.
  Only the read-back ensures exclude `\`, through `GestureList.CleanName`; the write equations and the add rule hold for every name.
- GestureList.UpdateAllFiles: the training script reads back as the list only when no listed name holds `NUM_CLASSES = `. The two rewrites interfere: the `NUM_CLASSES` rewrite (`add_new_gesture.py:28`) also matches inside the list literal that line 27 has just written. `GestureList.NumRewriteReachesList` gives a clean one-name list whose script reads back as a different list. This is derived from the model; the program was not run on it.
- GestureList.Parse: its ensures states only the no-match case. The content of a match is stated by `GestureList.ParseAfterSubGestures` for written lists, not for arbitrary script text.
- Recognizer.OnHandsResults: `Valid()` bounds the buffer by 30 and is kept by every call. The width of the buffered rows is not an invariant, because rows of hands with other than 21 landmarks are accepted.
- `np.array` of ragged data in `load_dataset` and `augment_dataset`: the arrays are sequences, so shapes are not checked.
- `os.listdir` order is the order of the given entry sequence. A missing gesture directory is a key absent from the directory map, and `os.path.exists` on it is `in`.
- The shape mismatch between the app's [1, 30, 126] input and the 63 features assumed by training and metadata (`react-app/src/App.jsx:58`, `convert_to_tfjs.py:109`) is kept as written on both sides and not reconciled.
- The gesture lists written in the scripts themselves (`train_model.py:25`, `generate_sample_data.py:13`, `convert_to_tfjs.py:29`) are not constants of the model. Every operation takes the list as a parameter, so their two label spellings, underscores and spaces, are not compared.
- SampleData.FileFor: a file's directory is the gesture name alone. The program joins it under the output directory (`os.path.join(output_dir, gesture)`, `generate_sample_data.py:139`, `:162`; `dataset` by default), and that prefix is not modelled.
