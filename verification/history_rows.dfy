/**
 * The row normaliser of the `/api/history` handler: each stored `analysis_records` row
 * becomes a JSON record with `/static/` URLs, defaults for an empty label or location,
 * and no confidence when the stored one is zero or missing.
 */
module HistoryRows {
  import opened Wrappers
  import opened PyText
  import Detect

  /**
   * Column 9 of a row: the row may be too short to have it, it may hold `NULL`, or text.
   */
  datatype TipCell = NoTipColumn | TipNull | TipText(text: string)

  /**
   * A stored row with the columns the handler reads: 0 id, 2 file type, 3 file path,
   * 4 result path, 5 species label, 6 location, 7 confidence, 8 creation time (already formatted
   * as `%Y-%m-%d %H:%M:%S`), 9 advisory. `None` stands for SQL `NULL`.
   */
  datatype Row = Row(
    id: int, fileType: string, filePath: string, resultPath: string,
    species: Option<string>, location: Option<string>, confidence: Option<real>,
    createdAt: string, tip: TipCell)

  /** One element of the `data` list the handler returns. `None` is JSON `null`. */
  datatype HistoryRecord = HistoryRecord(
    id: int, detectTime: string, mushroomType: string, location: string,
    confidence: Option<real>, filePath: string, resultPath: string,
    fileType: string, dangerTip: Option<string>)

  const StaticPrefix: string := "/static/"
  const UploadsPrefix: string := "/static/uploads/"
  const UnknownSpecies: string := "未知"
  const UnspecifiedLocation: string := "未指定"

  lemma PrefixesEndInSlash()
    ensures UploadsPrefix != "" && UploadsPrefix[|UploadsPrefix| - 1] == '/'
    ensures StartsWith(UploadsPrefix, StaticPrefix)
    ensures StartsWith(StaticPrefix, StaticPrefix)
  {
  }

  /**
   * The stored upload path as a URL: kept when it already starts with `/static/`,
   * otherwise `/static/uploads/` followed by its basename.
   */
  function FileUrl(path: string): (r: string)
    ensures StartsWith(r, StaticPrefix)
    ensures StartsWith(path, StaticPrefix) ==> r == path
    ensures !StartsWith(path, StaticPrefix) ==> StartsWith(r, UploadsPrefix)
    ensures !StartsWith(path, StaticPrefix) ==> '/' !in r[|UploadsPrefix|..]
  {
    if StartsWith(path, StaticPrefix) then path
    else
      BasenameIsLastComponent(path);
      assert (UploadsPrefix + Basename(path))[|UploadsPrefix|..] == Basename(path);
      PrefixesEndInSlash();
      StartsWithAppend(UploadsPrefix, StaticPrefix, Basename(path));
      UploadsPrefix + Basename(path)
  }

  /** Normalising a file path keeps the file's name. */
  lemma FileUrlKeepsBasename(path: string)
    ensures Basename(FileUrl(path)) == Basename(path)
  {
    if !StartsWith(path, StaticPrefix) {
      var name := Basename(path);
      PrefixesEndInSlash();
      BasenameAfterPrefix(UploadsPrefix, name);
      BasenameIdempotent(path);
    }
  }

  /** The stored result path as a URL: kept when it already starts with `/static/`, else prefixed. */
  function ResultUrl(path: string): (r: string)
    ensures StartsWith(r, StaticPrefix)
    ensures StartsWith(path, StaticPrefix) ==> r == path
    ensures !StartsWith(path, StaticPrefix) ==> r[|StaticPrefix|..] == path
  {
    if StartsWith(path, StaticPrefix) then path
    else
      StartsWithAppend(StaticPrefix, StaticPrefix, path);
      StaticPrefix + path
  }

  /** Normalising a file path twice is the same as once. */
  lemma FileUrlIdempotent(path: string)
    ensures FileUrl(FileUrl(path)) == FileUrl(path)
  {
  }

  /** Normalising a result path twice is the same as once. */
  lemma ResultUrlIdempotent(path: string)
    ensures ResultUrl(ResultUrl(path)) == ResultUrl(path)
  {
  }

  /** Python's `value or default` on a nullable text column: `NULL` and `''` both give the default. */
  function TextOr(value: Option<string>, default: string): (r: string)
    ensures value.Some? && value.value != "" ==> r == value.value
    ensures value.None? || value.value == "" ==> r == default
  {
    if value.Some? && value.value != "" then value.value else default
  }

  /** `float(c) if c else None`: a missing or zero confidence is reported as no confidence. */
  function ConfidenceOrNone(c: Option<real>): (r: Option<real>)
    ensures r.None? <==> c.None? || c.value == 0.0
    ensures r.Some? ==> r.value == c.value
  {
    if c.Some? && c.value != 0.0 then c else None
  }

  /** `row[9] if len(row) > 9 else ''` */
  function TipOf(tip: TipCell): (r: Option<string>)
    ensures tip.NoTipColumn? ==> r == Some("")
    ensures tip.TipNull? ==> r == None
    ensures tip.TipText? ==> r == Some(tip.text)
  {
    match tip
    case NoTipColumn => Some("")
    case TipNull => None
    case TipText(s) => Some(s)
  }

  /** The JSON record for one stored row. */
  function NormalizeRow(row: Row): (r: HistoryRecord)
    ensures r.id == row.id && r.detectTime == row.createdAt && r.fileType == row.fileType
    ensures StartsWith(r.filePath, StaticPrefix) && StartsWith(r.resultPath, StaticPrefix)
    ensures r.mushroomType != "" && r.location != ""
  {
    HistoryRecord(
      row.id, row.createdAt,
      TextOr(row.species, UnknownSpecies), TextOr(row.location, UnspecifiedLocation),
      ConfidenceOrNone(row.confidence),
      FileUrl(row.filePath), ResultUrl(row.resultPath),
      row.fileType, TipOf(row.tip))
  }

  /** The handler's loop over the page's rows, appending one record per row in order. */
  method NormalizeRows(rows: seq<Row>) returns (records: seq<HistoryRecord>)
    ensures |records| == |rows|
    ensures forall i :: 0 <= i < |rows| ==> records[i] == NormalizeRow(rows[i])
  {
    records := [];
    for k := 0 to |rows|
      invariant |records| == k
      invariant forall i :: 0 <= i < k ==> records[i] == NormalizeRow(rows[i])
    {
      var row := rows[k];
      var filePath := row.filePath;
      var resultPath := row.resultPath;
      if !StartsWith(filePath, StaticPrefix) {
        filePath := UploadsPrefix + Basename(filePath);
      }
      if !StartsWith(resultPath, StaticPrefix) {
        resultPath := StaticPrefix + resultPath;
      }
      assert filePath == FileUrl(row.filePath);
      assert resultPath == ResultUrl(row.resultPath);
      var record := HistoryRecord(
        row.id, row.createdAt,
        TextOr(row.species, UnknownSpecies), TextOr(row.location, UnspecifiedLocation),
        ConfidenceOrNone(row.confidence), filePath, resultPath,
        row.fileType, TipOf(row.tip));
      assert record == NormalizeRow(row);
      records := records + [record];
    }
  }

  // ---------------------------------------------------------------------------
  // From detection to history

  /**
   * The row that the detect handler's insert reads back as, under the column layout the
   * history handler expects.
   */
  function StoredRow(id: int, rec: Detect.AnalysisInsert): Row {
    Row(id, rec.fileType, rec.filePath, rec.resultPath, Some(rec.mushroomType),
        Some(rec.location), Some(rec.confidence), rec.createdAt, TipText(rec.dangerTip))
  }

  /** A text without `/` cannot start with `/static/`. */
  lemma NoSlashNoStaticPrefix(s: string)
    requires '/' !in s
    ensures !StartsWith(s, StaticPrefix)
  {
    assert StaticPrefix[0] == '/';
    if |s| >= |StaticPrefix| {
      assert s[0] in s;
    }
  }

  /** The result path the detect handler stores is listed under the URL its response gave. */
  lemma StoredResultUrl(annotated: string)
    ensures ResultUrl(Basename(annotated)) == Detect.ResultImageUrl(annotated)
  {
    BasenameIsLastComponent(annotated);
    NoSlashNoStaticPrefix(Basename(annotated));
  }

  /** The upload path the detect handler stores is listed under the uploaded file's basename. */
  lemma StoredFileUrl(filename: string)
    ensures Basename(FileUrl(PathJoin(Detect.UploadDir, filename))) == Basename(filename)
  {
    BasenameOfJoin(Detect.UploadDir, filename);
    FileUrlKeepsBasename(PathJoin(Detect.UploadDir, filename));
  }

  /**
   * A detection, once stored and listed, shows the same species, advisory, time and result
   * image URL as the detect response, the uploaded file under its basename, the location
   * as unspecified, and the confidence unless it was zero (an image with no detection is
   * listed with no confidence, not 0.0).
   */
  lemma DetectThenList(file: Option<Detect.Upload>, inference: Result<Detect.Inference>,
                       detectTime: string, id: int)
    requires Detect.DetectMushroom(file, inference, detectTime).Detected?
    ensures var out := Detect.DetectMushroom(file, inference, detectTime);
      var rec := NormalizeRow(StoredRow(id, out.record));
      && rec.mushroomType == out.response.mushroomType
      && rec.dangerTip == Some(out.response.dangerTip)
      && rec.detectTime == out.response.detectTime
      && rec.resultPath == out.response.resultImage
      && Basename(rec.filePath) == Basename(file.value.filename)
      && rec.location == UnspecifiedLocation
      && rec.confidence == (if out.response.confidence == 0.0 then None else Some(out.response.confidence))
  {
    var out := Detect.DetectMushroom(file, inference, detectTime);
    StoredResultUrl(inference.value.annotatedPath);
    StoredFileUrl(file.value.filename);
    assert Detect.Resolve(inference.value.boxes).species != "";
  }
}
