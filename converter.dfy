/** The model converter: what it writes next to the converted model (the
    label map and the metadata), how it reports file sizes, and that it
    writes nothing when the trained model is missing. The conversion itself
    and the file system stay outside and are described by the effects the
    converter performs. */
module Converter {
  import opened Decimal
  import GestureList
  import Recognizer

  const KIB: nat := 1024
  const MIB: nat := 1024 * 1024

  // ---------------------------------------------------------------------
  // Label map
  // ---------------------------------------------------------------------

  /** `{i: gesture for i, gesture in enumerate(GESTURES)}`, for the list `gs`
      the script holds. */
  function LabelMap(gs: seq<string>): (m: map<int, string>)
    ensures |m| == |gs|
    ensures forall i :: 0 <= i < |gs| ==> i in m && m[i] == gs[i]
    ensures forall k :: k in m ==> 0 <= k < |gs|
  {
    if gs == [] then map[]
    else
      var n := |gs| - 1;
      LabelMap(gs[..n])[n := gs[n]]
  }

  /** `json.dump` writes the integer keys as decimal strings. */
  function JsonKeys(m: map<int, string>): (j: map<string, string>)
    requires forall k :: k in m ==> k >= 0
    ensures forall k :: k in m ==> NatToString(k) in j && j[NatToString(k)] == m[k]
    ensures forall s :: s in j ==> exists k :: k in m && s == NatToString(k)
  {
    assert forall a: nat, b: nat :: NatToString(a) == NatToString(b) ==> a == b by {
      forall a: nat, b: nat | NatToString(a) == NatToString(b) ensures a == b {
        NatToStringInjective(a, b);
      }
    }
    map k | k in m :: NatToString(k) := m[k]
  }

  /** The labels file the converter writes has the same content as the one
      the gesture manager writes for the same list. */
  lemma {:induction false} LabelFilesAgree(gs: seq<string>)
    ensures JsonKeys(LabelMap(gs)) == GestureList.LabelMap(gs)
  {
    JsonLabelsInManager(gs);
    ManagerLabelsInJson(gs);
    SameEntries(JsonKeys(LabelMap(gs)), GestureList.LabelMap(gs));
  }

  /** Two maps with the same entries are equal. */
  lemma SameEntries<K, V>(a: map<K, V>, b: map<K, V>)
    requires forall k :: k in a ==> k in b && b[k] == a[k]
    requires forall k :: k in b ==> k in a
    ensures a == b
  {
    assert a.Keys == b.Keys;
  }

  lemma JsonLabelsInManager(gs: seq<string>)
    ensures forall s :: s in JsonKeys(LabelMap(gs)) ==>
      s in GestureList.LabelMap(gs) && GestureList.LabelMap(gs)[s] == JsonKeys(LabelMap(gs))[s]
  {
    var m := LabelMap(gs);
    var j, g := JsonKeys(m), GestureList.LabelMap(gs);
    forall s | s in j ensures s in g && g[s] == j[s] {
      var k :| k in m && s == NatToString(k);
      assert 0 <= k < |gs| && m[k] == gs[k];
      assert j[s] == gs[k];
    }
  }

  lemma ManagerLabelsInJson(gs: seq<string>)
    ensures forall s :: s in GestureList.LabelMap(gs) ==> s in JsonKeys(LabelMap(gs))
  {
    var m := LabelMap(gs);
    var j, g := JsonKeys(m), GestureList.LabelMap(gs);
    forall s | s in g ensures s in j {
      var i :| 0 <= i < |gs| && s == NatToString(i);
      assert i in m;
    }
  }

  // ---------------------------------------------------------------------
  // File sizes
  // ---------------------------------------------------------------------

  datatype SizeUnit = B | KB | MB

  /** The if/elif/else chain that picks the unit of a size in bytes. */
  function UnitOf(size: nat): SizeUnit
  {
    if size < KIB then B else if size < MIB then KB else MB
  }

  /** Each unit covers exactly its range of sizes. */
  lemma UnitRanges(size: nat)
    ensures UnitOf(size) == B <==> size < 1024
    ensures UnitOf(size) == KB <==> 1024 <= size < 1048576
    ensures UnitOf(size) == MB <==> 1048576 <= size
  {
  }

  /** A size as listed: bytes are printed as the integer itself followed by
      " B"; kilo- and megabytes carry the exact quotient, whose two-decimal
      rendering is not modelled. */
  datatype SizeText = Bytes(text: string) | Kilobytes(value: real) | Megabytes(value: real)

  function SizeString(size: nat): (t: SizeText)
    ensures t.Bytes? <==> UnitOf(size) == B
    ensures t.Kilobytes? <==> UnitOf(size) == KB
    ensures t.Kilobytes? ==> t.value * 1024.0 == size as real
    ensures t.Megabytes? ==> t.value * 1048576.0 == size as real
  {
    match UnitOf(size)
    case B => Bytes(NatToString(size) + " B")
    case KB => Kilobytes(size as real / 1024.0)
    case MB => Megabytes(size as real / 1048576.0)
  }

  /** In bytes the printed number reads back as the size. */
  lemma BytesShowSize(size: nat)
    requires size < KIB
    ensures var t := SizeString(size).text;
      |t| >= 3 && t[|t| - 2..] == " B" && AllDigits(t[..|t| - 2]) && DigitsValue(t[..|t| - 2]) == size
  {
    var d := NatToString(size);
    var t := SizeString(size).text;
    assert t == d + " B";
    assert t[..|t| - 2] == d;
    NatToStringValue(size);
  }

  /** A file of the output directory: its name and size in bytes. */
  datatype ListedFile = ListedFile(name: string, size: nat)

  /** The "Generated files" listing: each file with its size text. */
  method ListGeneratedFiles(listing: seq<ListedFile>) returns (lines: seq<(string, SizeText)>)
    ensures |lines| == |listing|
    ensures forall i :: 0 <= i < |listing| ==> lines[i] == (listing[i].name, SizeString(listing[i].size))
  {
    lines := [];
    for i := 0 to |listing|
      invariant |lines| == i
      invariant forall j :: 0 <= j < i ==> lines[j] == (listing[j].name, SizeString(listing[j].size))
    {
      lines := lines + [(listing[i].name, SizeString(listing[i].size))];
    }
  }

  // ---------------------------------------------------------------------
  // The conversion run
  // ---------------------------------------------------------------------

  /** `os.path.join(a, b)` on POSIX paths. */
  function Join(a: string, b: string): (p: string)
    ensures |b| > 0 && b[0] == '/' ==> p == b
    ensures !(|b| > 0 && b[0] == '/') ==> |p| >= |a| + |b| && p[..|a|] == a && p[|p| - |b|..] == b
  {
    if |b| > 0 && b[0] == '/' then b
    else if a == [] || a[|a| - 1] == '/' then a + b
    else a + "/" + b
  }

  datatype Metadata = Metadata(modelName: string, version: string, description: string,
                               gestures: seq<string>, numClasses: nat, sequenceLength: nat,
                               numLandmarks: nat, inputShape: seq<nat>, framework: string,
                               license: string)

  /** The metadata written next to the model. */
  function ModelMetadata(gs: seq<string>): (md: Metadata)
    ensures md.gestures == gs && md.numClasses == |gs|
  {
    Metadata("V-Sign AI", "1.0.0", "Vietnamese Sign Language Recognition Model", gs, |gs|,
             30, 21, [30, 63], "TensorFlow.js", "MIT")
  }

  /** What the converter does to the file system, in order. */
  datatype Effect =
    | MakeDirs(dir: string)
    | SaveModel(dir: string)
    | WriteLabels(path: string, labels: map<int, string>)
    | WriteMetadata(path: string, metadata: Metadata)

  /** `convert_to_tfjs`: stop when the model file is missing; otherwise
      create the output directory, save the converted model there, list the
      generated files with their sizes, and write the label map and the
      metadata into the directory. `gestures` is the list the script holds
      (`GESTURES`, which the gesture manager rewrites), and `listing` is what
      the directory holds after saving. */
  method ConvertToTfjs(gestures: seq<string>, modelExists: bool, outputDir: string, listing: seq<ListedFile>)
    returns (effects: seq<Effect>, lines: seq<(string, SizeText)>)
    ensures !modelExists ==> effects == [] && lines == []
    ensures modelExists ==> effects == [
      MakeDirs(outputDir), SaveModel(outputDir),
      WriteLabels(Join(outputDir, "labels.json"), LabelMap(gestures)),
      WriteMetadata(Join(outputDir, "metadata.json"), ModelMetadata(gestures))]
    ensures modelExists ==> |lines| == |listing|
    ensures modelExists ==> forall i :: 0 <= i < |listing| ==> lines[i] == (listing[i].name, SizeString(listing[i].size))
  {
    effects, lines := [], [];
    if !modelExists {
      return;
    }
    effects := effects + [MakeDirs(outputDir)];
    effects := effects + [SaveModel(outputDir)];
    lines := ListGeneratedFiles(listing);
    var labelMap := LabelMap(gestures);
    effects := effects + [WriteLabels(Join(outputDir, "labels.json"), labelMap)];
    var metadata := ModelMetadata(gestures);
    effects := effects + [WriteMetadata(Join(outputDir, "metadata.json"), metadata)];
  }

  /** The label file and the metadata agree on the number of classes, and
      every label index is a class index. */
  lemma LabelsMatchMetadata(gs: seq<string>)
    ensures |LabelMap(gs)| == ModelMetadata(gs).numClasses
    ensures forall k :: k in LabelMap(gs) ==> 0 <= k < ModelMetadata(gs).numClasses
  {
  }

  /** The recogniser looks labels up by class index in the table it loads
      from the converter's label file: class k shows gesture k, and an index
      outside the list shows nothing. */
  lemma AppReadsConverterLabels(gs: seq<string>, k: int)
    ensures 0 <= k < |gs| ==> Recognizer.LabelOrEmpty(LabelMap(gs), k) == gs[k]
    ensures !(0 <= k < |gs|) ==> Recognizer.LabelOrEmpty(LabelMap(gs), k) == ""
  {
  }
}
