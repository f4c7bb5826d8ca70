# Wild-mushroom detection service: a Dafny model

The application is a small Flask service. A user uploads a photograph of a wild
mushroom. A YOLOv8 detector labels it with one of twelve Yunnan species. The service
answers with the species, the detector's confidence and an edibility advisory, and it
stores the detection in an `analysis_records` table. A history page lists the stored
detections, filtered by age and species, eight to a page. A statistics endpoint counts
the detections per species.

This project models the deterministic core of that service and proves properties of it:

- `Taxonomy`: the twelve class names, in detector order; the edible list; the
  "not recognised" sentinel.
- `Detect`: the `/api/detect` handler. It turns the detector's boxes into a species
  label, a confidence and an advisory, builds the annotated-image URL, and assembles the
  response and the inserted record. The upload, the inference and the clock are
  parameters.
- `HistoryQuery`: the filter part of `/api/history`. The `days` and `type` values become
  a WHERE clause drawn from two fixed conditions, plus the values bound to its `%s`
  placeholders. Both queries carry as many placeholders as the tuples bound to them.
- `Pagination`: the LIMIT/OFFSET window and the page count `(total + per_page - 1) //
  per_page`. Python's floor division is modelled, and a zero page size is an error.
  Reading every page in order gives back every row once, provided the count and every
  page query see the same rows in the same order.
- `HistoryRows`: the normalisation of each stored row into a history record. This covers
  the `/static/` URL rewriting, the `or` defaults, the zero-confidence-to-`null` rule and
  the optional advisory column. It also proves that a detection, once stored and listed,
  shows the species, advisory, time and result URL the detect response showed, and the
  upload under its basename. The confidence is shown too, unless it was 0.0: an image
  with no detection is listed with a `null` confidence, not the 0.0 of the response.
- `ClassStats`: the `/api/stats/classes` aggregation. The grouped counts of the
  `detect_type` column are used, or those of `mushroom_type` when the first query gives
  none. Every taxonomy species is then reported in order, with 0 when absent.
- `HistoryCursor`: the page cursor of the history page script. It is a class whose
  `currentPage` and `totalPages` fields the click, change and reply handlers update in
  place.
- `PyText`, `Wrappers`: the Python builtins the handlers rely on, stated over strings.
  These are `str.startswith`, POSIX `os.path.basename` and `os.path.join`, `str(int)`
  and `sep.join`. `PyText` also defines `Placeholders`, a measure of a query text: the
  number of `%s` markers to which the database driver binds the parameter tuple.
  `Wrappers` holds `Option` and `Result`.

The model proves the code's behaviour as written. Two consequences are worth noting:

- The edible list spells one species `鸡枞`, while the detector's class is `鸡枞菌`. A
  detected `鸡枞菌` therefore receives the caution advisory (`Detect.EdibleClasses`).
- The history filter code `jizong` maps to `鸡枞`. No label the detector assigns is ever
  `鸡枞` (`HistoryQuery.JizongMatchesNoDetection`).

## Model

| member | source | states |
|---|---|---|
| Taxonomy.TaxonomyShape | app.py:30-33 | twelve class names, pairwise distinct, none of them the "not recognised" sentinel |
| Detect.UnknownLabel | app.py:139-140 | an out-of-range class is labelled `未知(` + its index + `)` |
| Detect.UnknownLabelCarriesIndex | app.py:140 | the index written inside an unknown label reads back as `str(cls)` |
| Detect.UnknownLabelIsNoSpecies | app.py:137-140 | an unknown label is neither a taxonomy name nor `未识别` |
| Detect.ClassLabel | app.py:135-140 | an in-range class gets its taxonomy name, any other class `UnknownLabel(cls)`; the label is a taxonomy name exactly when the class is in range; never `未识别` and never empty |
| Detect.ClassLabelInjective | app.py:137-140 | distinct class indices get distinct labels, out-of-range ones included |
| Detect.Advisory | app.py:143-149 | the edible tip exactly for the edible list; the not-identified tip exactly for `未识别`; caution otherwise |
| Detect.Resolve | app.py:132-154 | no boxes, or an empty list, give (`未识别`, 0.0, not-identified); otherwise the first box's label and confidence, with the edible or caution tip; the not-identified tip appears exactly when the species is `未识别` |
| Detect.ResolveReadsFirstBoxOnly | app.py:132-135 | two detections with the same first box resolve identically |
| Detect.EdibleClasses | app.py:30-33 | whatever the confidence, classes 2, 4, 6, 7 and 11 (and only these) have a label on the edible list and are reported edible; class 10 (`鸡枞菌`) gets the caution tip |
| Detect.ResultImageUrl | app.py:156-157 | the result URL is `/static/` followed by the annotated image's basename |
| Detect.DetectMushroom | app.py:111-180 | rejected exactly when the file is missing or unnamed; an inference error is reported exactly when the file is accepted and inference failed; on success the response and the inserted record agree on species, confidence, advisory and time, and the record stores user 1, the content type (or `image`), the joined upload path, the basename of the result and an empty location |
| PyText.BasenameIsLastComponent | app.py:86 | `os.path.basename` is a `/`-free suffix of the path, preceded by `/` unless it is the whole path |
| PyText.BasenameIdempotent | app.py:86 | the basename of a basename is itself |
| PyText.BasenameAfterPrefix | app.py:86 | whatever comes before a prefix ending in `/` does not affect the basename |
| PyText.BasenameOfJoin | app.py:120 | `os.path.join(dir, name)` keeps the basename of `name` |
| PyText.NatToString | app.py:140 | `str(n)` is a non-empty string of digits without a leading zero |
| PyText.ParseIntToString | app.py:140 | `int(str(i)) == i` for every integer |
| PyText.IntToStringInjective | app.py:140 | different integers render differently |
| PyText.PlaceholdersConcat | app.py:68 | `%s` counts add up under concatenation when no `%s` spans the seam |
| PyText.JoinPlaceholders | app.py:68 | joining one-placeholder conditions with a `%`-free separator gives one placeholder per condition |
| HistoryQuery.MapTypeCode | app.py:62-67 | a known type code becomes its label; a value passes through unchanged exactly when it is not a known code |
| HistoryQuery.JizongMatchesNoDetection | app.py:64 | the label `jizong` maps to is never a label the detector assigns |
| HistoryQuery.ConditionShape | app.py:57-60 | each condition text holds exactly one `%s` and does not end in `%` |
| HistoryQuery.WhereClause | app.py:68 | the clause holds one placeholder per condition; it is `1=1` exactly when there are no conditions |
| HistoryQuery.BuildFilter | app.py:54-68 | one condition and one parameter per filter that is not `all`, in order, the type mapped; the clause's placeholders equal the parameters; `1=1` exactly when both filters are `all` |
| HistoryQuery.PageQueryPlaceholders | app.py:73-78 | the page query has the clause's placeholders plus two (LIMIT, OFFSET) |
| HistoryQuery.QueriesMatchParams | app.py:69-79 | the count query's placeholders equal the parameter count; the page query's equal the parameters plus `per_page` and `offset` |
| Pagination.FloorDiv | app.py:105 | Python's `//` rounds toward negative infinity, for both signs of the divisor |
| Pagination.PageCount | app.py:105 | a zero page size is an error; otherwise, for a positive size and non-negative total, `(p - 1) * per_page < total <= p * per_page` |
| Pagination.PageCountIsLeast | app.py:105 | the page count is the least number of pages that holds every row |
| Pagination.RowOnPage | app.py:72 | every row index lies on page `r / per_page + 1`, which is one of the counted pages |
| Pagination.PageOfRowUnique | app.py:72 | two pages holding the same row are the same page |
| Pagination.NoEmptyPage | app.py:72 | every counted page starts before the last row |
| Pagination.PageRows | app.py:72-79 | a LIMIT/OFFSET window holds at most `per_page` rows |
| Pagination.AllPagesReproduceRows | app.py:72-105 | pages 1 to the page count, concatenated, are exactly the ordered rows |
| HistoryRows.FileUrl | app.py:83-86 | the file URL starts with `/static/`; a path already under `/static/` is kept; any other is listed directly under `/static/uploads/`, with no further `/` after that prefix |
| HistoryRows.FileUrlKeepsBasename | app.py:85-86 | rewriting a file path keeps its basename |
| HistoryRows.ResultUrl | app.py:84-88 | the result URL starts with `/static/`; a path already under it is kept; any other is prefixed unchanged |
| HistoryRows.FileUrlIdempotent | app.py:85-86 | rewriting a rewritten file URL changes nothing |
| HistoryRows.ResultUrlIdempotent | app.py:87-88 | rewriting a rewritten result URL changes nothing |
| HistoryRows.TextOr | app.py:92-93 | `value or default`: `NULL` and `''` give the default; any other text is kept |
| HistoryRows.ConfidenceOrNone | app.py:94 | the confidence is `null` exactly when the stored one is missing or zero; otherwise it is kept |
| HistoryRows.TipOf | app.py:98 | a row without column 9 gives `''`; `NULL` gives `null`; text is kept |
| HistoryRows.NormalizeRow | app.py:89-99 | a record keeps id, time and file type; both URLs start with `/static/`; species and location are never empty |
| HistoryRows.NormalizeRows | app.py:80-99 | one record per row, in order, each the row's normalisation |
| HistoryRows.StoredResultUrl | app.py:156-157 | the stored result path is listed under the URL the detect response gave |
| HistoryRows.StoredFileUrl | app.py:120 | the stored upload path is listed under the uploaded file's basename |
| HistoryRows.DetectThenList | app.py:166-168 | a stored detection, once listed, shows the response's species, advisory, time and result URL; it also shows the upload's basename, the location `未指定`, and the confidence unless it was zero |
| ClassStats.CountMapOfSpec | app.py:195-198 | the count map's keys are exactly the labels that occur; each label maps to its last row's count |
| ClassStats.CountOrZero | app.py:213 | `count_map.get(name, 0)` |
| ClassStats.BuildCountMap | app.py:195-198 | the loop builds the count map of all rows |
| ClassStats.ClassCounts | app.py:195-213 | one entry per taxonomy species, in taxonomy order, counted from the `detect_type` grouping, or from the `mushroom_type` grouping when the first is empty |
| ClassStats.GroupedCounts | app.py:192-213 | with distinct group labels, a species gets its own group's count, and 0 when it has no group |
| HistoryCursor.Cursor.constructor | static/js/history.js:10-11 | the cursor starts on page 1 of 1 |
| HistoryCursor.OpenHistoryPage | static/js/history.js:99-100 | opening the page gives a new cursor on page 1 of 1, and the first request fetches page 1 with the filters' initial values |
| HistoryCursor.Cursor.PrevPage | static/js/history.js:82-87 | moves back one page and fetches it only when past page 1, otherwise nothing; keeps the cursor at 1 or more |
| HistoryCursor.Cursor.NextPage | static/js/history.js:88-93 | moves forward and fetches only while below the page count, so it never passes that count; otherwise nothing |
| HistoryCursor.Cursor.FilterChanged | static/js/history.js:94-97 | any filter change resets to page 1 and always fetches it |
| HistoryCursor.Cursor.OnHistoryResponse | static/js/history.js:19-25 | a successful reply sets the page count and shows the current page; a failed one changes nothing |

## Left out

- Flask routing, HTTP status codes, session configuration and the secret key: these are framework configuration.
- `ensure_directories`, `file.save` and `os.path.exists`: these are file-system effects. The upload path is modelled only as a value. A failing `file.save` sits outside any `try` and raises out of the detect handler. That outcome is not modelled.
- The YOLOv8 detector and the model weights are foreign code. The detector's boxes and annotated path, or its error, are a parameter of `Detect.DetectMushroom`.
- `datetime.now().strftime(...)` is a clock. The detection time is a parameter. A stored row's creation time is taken as already formatted.
- The database layer (`util/DBUtil.py`) and SQL evaluation are not part of this model. The `days` condition's date arithmetic is not evaluated. LIMIT/OFFSET is modelled as a window on the already ordered rows (`Pagination.PageRows`). The count query's result, including its default of 0 when empty, is taken as the `total` input.
- Database failures are not modelled. In the source they are exceptions that the history and statistics handlers turn into `success: false` replies. In the detect handler a failed insert is swallowed, so its outcome does not depend on the insert.
- The request-argument defaults (`days` `'7'`, `type` `'all'`, `page` `'1'`, `page_size` `'8'`) and `int()` parsing of `page` and `page_size` are not modelled. The parsed values are inputs.
- HistoryQuery.PageQuery: the layout whitespace of the triple-quoted page query is collapsed to single spaces. Placeholder counts do not depend on it.
- `stats_overview` is left out. It consists of three SQL aggregates and a clock-dependent "today".
- Startup code is left out: table creation and the default `admin` user.
- `static/js/main.js`, and the rendering parts of `static/js/history.js` (`renderTable`, `showDetail`, the modal), are DOM and chart code. The network round trip of `fetchHistory` is left out too: each handler returns the request it sends, and a reply is delivered by `OnHistoryResponse`.
- Float formatting of the confidence, and the JSON encoding of replies, are left out.
- Detect.Resolve: the box's confidence is taken as the real value `float()` produces. Floating-point rounding is not modelled.
- HistoryRows.DetectThenList: the round trip assumes the store gives back every inserted value unchanged, in the column layout the history handler reads. Column 2 is the file type, 3 the upload path, 4 the result path, 5 `mushroom_type`, 6 the location, 7 the confidence, 8 `created_at` and 9 `danger_tip`. This layout is the one the history handler's indices and the detect handler's `INSERT` imply. The `CREATE TABLE` in `util/DBUtil.py` differs: it has no `mushroom_type` and no `danger_tip` column, and with that table the insert would fail and be swallowed. The single-precision `FLOAT` storage of the confidence is not modelled: the confidence reads back exactly.
- Detect.DetectMushroom: a missing content type becomes `image`. The source tests only whether the upload object has a `content_type` attribute, so an upload whose content type is `None` would be stored as `NULL`.
- Pagination.AllPagesReproduceRows: the count and every page query are assumed to see one fixed sequence of rows in one fixed order. In the source they are separate queries, issued in separate requests. Rows that share a `created_at` second may come back in a different order each time, since the order is on `created_at DESC` alone. Rows inserted between requests shift the pages. Neither effect is modelled.
