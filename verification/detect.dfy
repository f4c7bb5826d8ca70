/**
 * The deterministic part of the `/api/detect` handler: turning the detector's boxes into a
 * species label, a confidence and an edibility advisory, building the annotated-image URL,
 * and assembling the response together with the record the handler writes.
 */
module Detect {
  import opened Wrappers
  import opened PyText
  import opened Taxonomy

  /** One detected region as the detector reports it: a class index and a confidence. */
  datatype Box = Box(cls: int, conf: real)

  /** Species label, confidence and advisory for one image. */
  datatype Resolution = Resolution(species: string, confidence: real, advisory: string)

  const EdibleTip: string := "提示：该菌类可食用"
  const NotIdentifiedTip: string := "提示：未识别出菌类"
  const CautionTip: string := "提示：请谨慎辨别，部分野生菌有毒！"

  /** The label `未知(<cls>)` given to a class index outside the taxonomy. */
  function UnknownLabel(cls: int): (r: string)
    ensures StartsWith(r, UnknownPrefix) && |r| > |UnknownPrefix| + 1 && r[|r| - 1] == ')'
  {
    UnknownPrefix + IntToString(cls) + ")"
  }

  /** The index written inside an unknown label can be read back. */
  lemma UnknownLabelCarriesIndex(cls: int)
    ensures var r := UnknownLabel(cls);
      r[|UnknownPrefix|..|r| - 1] == IntToString(cls)
  {
    var r := UnknownLabel(cls);
    assert r[|UnknownPrefix|..|r| - 1] == IntToString(cls);
  }

  /** An unknown label is neither a taxonomy name nor the "not recognised" sentinel. */
  lemma UnknownLabelIsNoSpecies(cls: int)
    ensures UnknownLabel(cls) !in MushroomClasses
    ensures UnknownLabel(cls) != Unrecognized
  {
    var r := UnknownLabel(cls);
    TaxonomyShape();
    assert r[0] == UnknownPrefix[0];
    assert r[1] == UnknownPrefix[1] != Unrecognized[1];
  }

  /** The label for a class index: its taxonomy name when in range, `未知(<cls>)` otherwise. */
  function ClassLabel(cls: int): (r: string)
    ensures 0 <= cls < |MushroomClasses| ==> r == MushroomClasses[cls]
    ensures !(0 <= cls < |MushroomClasses|) ==> r == UnknownLabel(cls)
    ensures r in MushroomClasses <==> 0 <= cls < |MushroomClasses|
    ensures r != Unrecognized && r != ""
  {
    TaxonomyShape();
    if 0 <= cls < |MushroomClasses| then MushroomClasses[cls]
    else UnknownLabelIsNoSpecies(cls); UnknownLabel(cls)
  }

  /** Different class indices never share a label, so the label identifies the index. */
  lemma ClassLabelInjective(i: int, j: int)
    requires ClassLabel(i) == ClassLabel(j)
    ensures i == j
  {
    TaxonomyShape();
    if !(0 <= i < |MushroomClasses|) && !(0 <= j < |MushroomClasses|) {
      UnknownLabelCarriesIndex(i);
      UnknownLabelCarriesIndex(j);
      IntToStringInjective(i, j);
    }
  }

  /** The advisory for a label: edible list first, then the sentinel, caution otherwise. */
  function Advisory(name: string): (r: string)
    ensures r in {EdibleTip, NotIdentifiedTip, CautionTip} && r != ""
    ensures r == EdibleTip <==> name in EdibleList
    ensures r == NotIdentifiedTip <==> name == Unrecognized
  {
    if name in EdibleList then EdibleTip
    else if name == Unrecognized then NotIdentifiedTip
    else CautionTip
  }

  /**
   * Resolves the detector's output. `boxes` is `None` when the result has no `boxes`
   * attribute. Only the first box is consulted; its confidence is passed through.
   */
  function Resolve(boxes: Option<seq<Box>>): (r: Resolution)
    ensures (boxes.None? || boxes.value == []) ==>
      r == Resolution(Unrecognized, 0.0, NotIdentifiedTip)
    ensures boxes.Some? && boxes.value != [] ==>
      r.species == ClassLabel(boxes.value[0].cls) && r.confidence == boxes.value[0].conf &&
      r.advisory in {EdibleTip, CautionTip}
    ensures r.advisory in {EdibleTip, NotIdentifiedTip, CautionTip}
    ensures r.advisory == NotIdentifiedTip <==> r.species == Unrecognized
    ensures r.advisory == EdibleTip <==> r.species in EdibleList
    ensures r.species != ""
  {
    if boxes.Some? && |boxes.value| > 0 then
      var best := boxes.value[0];
      var name := ClassLabel(best.cls);
      Resolution(name, best.conf, Advisory(name))
    else
      Resolution(Unrecognized, 0.0, NotIdentifiedTip)
  }

  /** Boxes after the first never influence the result: there is no re-sorting. */
  lemma ResolveReadsFirstBoxOnly(a: seq<Box>, b: seq<Box>)
    requires a != [] && b != [] && a[0] == b[0]
    ensures Resolve(Some(a)) == Resolve(Some(b))
  {
  }

  /**
   * Which taxonomy classes are reported edible: exactly 松茸, 牛肝菌, 竹荪, 羊肚菌 and 鸡油菌.
   * 鸡枞菌 (index 10) gets the caution advisory because the edible list spells it 鸡枞.
   */
  lemma EdibleClasses(i: int, conf: real)
    requires 0 <= i < |MushroomClasses|
    ensures ClassLabel(i) in EdibleList <==> i in {2, 4, 6, 7, 11}
    ensures Resolve(Some([Box(i, conf)])).advisory == EdibleTip <==> i in {2, 4, 6, 7, 11}
    ensures i == 10 ==> Resolve(Some([Box(i, conf)])).advisory == CautionTip
  {
  }

  /** The URL under which the annotated image is served: `/static/` + its basename. */
  function ResultImageUrl(annotated: string): (r: string)
    ensures StartsWith(r, "/static/")
    ensures r[|"/static/"|..] == Basename(annotated)
  {
    "/static/" + Basename(annotated)
  }

  // ---------------------------------------------------------------------------
  // The handler as a whole

  /** The multipart `file` field: its file name and, when present, its content type. */
  datatype Upload = Upload(filename: string, contentType: Option<string>)

  /** What the detector returned: its boxes (if it had any) and the annotated image path. */
  datatype Inference = Inference(boxes: Option<seq<Box>>, annotatedPath: string)

  /** The values of the `INSERT INTO analysis_records` the handler issues. */
  datatype AnalysisInsert = AnalysisInsert(
    userId: int, fileType: string, filePath: string, resultPath: string,
    detectType: string, mushroomType: string, location: string,
    confidence: real, createdAt: string, dangerTip: string)

  /** The JSON body of a successful detection. */
  datatype DetectResponse = DetectResponse(
    mushroomType: string, confidence: real, resultImage: string,
    dangerTip: string, detectTime: string)

  /** The three outcomes modelled; a failing `file.save` is left out together with the save. */
  datatype DetectOutcome =
    | Rejected(message: string)
    | InferenceFailed(message: string)
    | Detected(response: DetectResponse, record: AnalysisInsert)

  const UploadDir: string := "static/uploads"

  /**
   * The `/api/detect` handler with its I/O turned into parameters: `file` is the form
   * field (absent or present), `inference` what the detector returned or the error it
   * raised, `detectTime` the formatted clock reading. A failing insert is swallowed by the
   * source, so the outcome does not depend on it.
   */
  function DetectMushroom(file: Option<Upload>, inference: Result<Inference>, detectTime: string): (r: DetectOutcome)
    ensures r.Rejected? <==> file.None? || file.value.filename == ""
    ensures r.InferenceFailed? <==> !r.Rejected? && inference.Err?
    ensures r.Detected? ==>
      var res := Resolve(inference.value.boxes);
      && r.response.mushroomType == res.species == r.record.mushroomType == r.record.detectType
      && r.response.confidence == res.confidence == r.record.confidence
      && r.response.dangerTip == res.advisory == r.record.dangerTip
      && r.response.resultImage == "/static/" + r.record.resultPath
      && r.response.resultImage == ResultImageUrl(inference.value.annotatedPath)
      && r.record.filePath == PathJoin(UploadDir, file.value.filename)
      && r.record.createdAt == r.response.detectTime == detectTime
      && r.record.location == ""
      && r.record.fileType == file.value.contentType.GetOr("image")
      && r.record.userId == 1
  {
    if file.None? then Rejected("没有文件")
    else if file.value.filename == "" then Rejected("未选择文件")
    else
      var uploadPath := PathJoin(UploadDir, file.value.filename);
      match inference
      case Err(e) => InferenceFailed("模型推理出错: " + e)
      case Ok(inf) =>
        var res := Resolve(inf.boxes);
        var resultPathDb := Basename(inf.annotatedPath);
        var fileType := file.value.contentType.GetOr("image");
        Detected(
          DetectResponse(res.species, res.confidence, "/static/" + resultPathDb, res.advisory, detectTime),
          AnalysisInsert(1, fileType, uploadPath, resultPathDb, res.species, res.species, "",
                         res.confidence, detectTime, res.advisory))
  }
}
