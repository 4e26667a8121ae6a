# SnapSheet `/extract_data`: a Dafny model of the table normaliser

SnapSheet turns a photo of a handwritten attendance sheet into a spreadsheet. Its one HTTP
endpoint, `POST /extract_data`, sends the image to a hosted language model. The model returns
the table as JSON. The handler then lays that JSON out as worksheet rows and appends an
"Attendance %" column. This project models the decision logic of that handler in
`backend/src/index.ts`:

- **Payload isolation** (line 46): `image.split(',')[1] || image`.
- **Code-fence stripping** (line 124): removing every "```json" and "```", then `trim`.
- **Table normaliser** (lines 132-158). It accepts two shapes:
  - the *structured* shape `{headers, data}`, whose header rows are copied and whose data
    objects are projected onto `headers[0]`;
  - the *flat* shape, an array of objects, whose columns are the keys in first-seen order.
  Any other value is rejected.
- **Attendance column** (lines 160-206). A right-to-left scan finds the last column holding
  the mark "P" in a row numbered above 2. Then each such row gets its share of marks.
- **File name** (lines 209-213), computed from an ISO timestamp.

Files, one module each:

| file | module | what it holds |
|---|---|---|
| `results.dfy` | `Results` | `Option`, `Result`, the handler's `Error` kinds |
| `json.dfy` | `JsonModel` | parsed JSON values, truthiness, `obj[key] ?? null`, `Object.keys`, insertion-ordered sets |
| `sheet.dfy` | `Sheet` | cells, grids with 1-based rows and columns, the `Worksheet` class (`addRow`, `getCell().value =`) |
| `normaliser.dfy` | `Normaliser` | shape dispatch and row projection, as specification functions and as the in-place filling methods |
| `attendance.dfy` | `Attendance` | the lecture-column scan, the counting loop, the percentage and the column write |
| `text.dfy` | `Text` | payload isolation, fence stripping and `trim`, the file name |
| `handler.dfy` | `Handler` | the pipeline from parsed JSON to worksheet, and worked examples |

Modelling choices:

- A JSON object is the list of its members in source order. A key may repeat: lookup takes
  the last value, and `Object.keys` lists each name once, at its first position. This is what
  `JSON.parse` builds from such text.
- `Json` has no `undefined`. An absent field reads as `Null`: a request without `image`, a
  table without `headers` or `data`, a missing first header row (`headers[0]`) and a
  missing key in a data row. Every use in the handler treats `undefined` and `null` alike
  (`!image`, `&&`, `?? null`, property access throwing).
- `Error.TypeError` stands for the JavaScript exceptions the handler's code can throw:
  - reading a property of `null`;
  - `forEach` or `map` on a value that is not an array;
  - `Object.keys(null)`.

  The handler answers all of them, like the invalid-format error, with status 500.
- A cell is a JSON value or `Percent(p)`. `Percent(p)` stands for the string
  `p.toFixed(2) + "%"`, with `p` computed exactly as a real number. A cell never written
  reads as null. Writing past the end of a row or of the sheet pads it with null cells.
- `totalColumns` is the length of sheet row 1, or 0 when the sheet has no rows.
- The building steps are methods on a `Worksheet` object:
  - `Fill` mirrors the `forEach`/`addRow` loops;
  - `FindLastLectureCol` mirrors the downward loop with its `foundP` flag and `break`;
  - `CountPresent` mirrors the upward counting loop;
  - `AddAttendance` mirrors the writes.

  Each method is proved equal to a specification function: `Normalise`, `LastLectureCol`,
  `PresentCount` or `WithAttendance`. The properties are proved as lemmas about those
  functions.
- Assumption: ExcelJS's `eachRow` visits every row. In fact it skips rows whose cells are all
  null, so such a row gets no score in the source. The model gives it one.

Behaviour of the code worth knowing:

- With one student marked "P" under "Prac 1" and nobody marked under "Prac 2", the lecture
  range ends at column 3, so the student scores 100%, not 50%
  (`Handler.TrailingUnmarkedColumnIgnored`).
- Rows 1 and 2 are always treated as header rows (line 169 and line 191). In the flat shape,
  or under a single header row, sheet row 2 is the first data row. That row is neither
  scanned nor scored, and its attendance cell is "" (`Attendance.Row2NeverScored`).
- Line 43 checks only that `image` is truthy. Nothing checks that the payload is valid or
  non-empty base64. An `image` that is truthy but not a string throws at `split` (line 46).
- Line 132 only tests `headers` for truthiness, so an empty array passes. With `headers: []`
  and an empty `data`, the normaliser adds no rows. The sheet then holds only
  "Attendance %" in A1 and "" in A2, because `getRow` creates rows 1 and 2
  (`Handler.EmptyTableLabelsOnly`). With a non-empty `data`, `headers[0].map` throws.

## Model

| member | source | states |
|---|---|---|
| `JsonModel.Truthy` | backend/src/index.ts:43 | JavaScript truthiness, as used by `!image` (line 43) and `jsonData.headers && jsonData.data` (line 132): null, false, 0 and "" are falsy; every array and object is truthy |
| `JsonModel.Field` | backend/src/index.ts:143 | `obj[key]` on an object's own members: the value of the last member with that name, or null |
| `JsonModel.KeyName` | backend/src/index.ts:143 | the property name a header key stands for: a string itself, null as "null", booleans as "true"/"false"; other keys are not converted |
| `JsonModel.Lookup` | backend/src/index.ts:143 | `row[key] ?? null` for a row that is not null: the named member of an object row, null otherwise |
| `JsonModel.ObjectKeys` | backend/src/index.ts:149 | `Object.keys(row)` of a parsed object: each member name once, at its first position |
| `Normaliser.IsStructured` | backend/src/index.ts:132 | the test `jsonData.headers && jsonData.data` on an object |
| `Normaliser.HeaderKeys` | backend/src/index.ts:139 | `headers[0]`, null when there is no first header row |
| `Normaliser.ProjectionThrows` | backend/src/index.ts:142-143 | `headerKeys.map(...)` throws when `headerKeys` is not an array, or when the row is null and there is a key to read |
| `Normaliser.HeaderRows` | backend/src/index.ts:134-136 | `headers.forEach(addRow)`: one row per header row, in order, each as `addRow` builds it |
| `Normaliser.ProjectAll` | backend/src/index.ts:142-145 | the per-row `forEach`/`map`: one projected row per data row, in order (also lines 152-155) |
| `Normaliser.Structured` | backend/src/index.ts:134-145 | the header rows in order, then each data row projected onto `headers[0]`; TypeError when `headers` or `data` is not an array or a row's projection throws |
| `Normaliser.KeysOf` | backend/src/index.ts:149 | `Object.keys(row)` of a row that is not null: an object's member names; numbers, booleans, strings and arrays give no keys here |
| `Normaliser.KeyStream` | backend/src/index.ts:149 | every key met reading `Object.keys` of each row in turn, repetitions included |
| `Normaliser.Columns` | backend/src/index.ts:148-150 | `Array.from(columns)`: the key stream with repetitions removed, in insertion order |
| `Normaliser.NameCells` | backend/src/index.ts:151 | `worksheet.addRow(headers)` of the flat shape: one string cell per column name, in order |
| `Normaliser.Flat` | backend/src/index.ts:146-155 | a header row of the column names, then each row projected onto those names; TypeError when a row is null |
| `Normaliser.Normalise` | backend/src/index.ts:132-158 | the dispatch: null throws when `.headers` is read; a structured object goes to `Structured`; an array goes to `Flat`; anything else is the invalid-format error of line 157 |
| `Sheet.Worksheet.constructor` | backend/src/index.ts:128-129 | `new ExcelJS.Workbook()` with `addWorksheet('Data')`: the new worksheet has no rows |
| `Sheet.At` | backend/src/index.ts:170 | `getRow(r).getCell(c).value`, 1-based; a cell never written is null |
| `Sheet.PutInRow` | backend/src/index.ts:204 | `row.getCell(c).value = v` on one row: cell c becomes v, the row is padded with null cells up to c, and every other cell is unchanged |
| `Sheet.Put` | backend/src/index.ts:184 | `getRow(r).getCell(c).value = v`, creating the row and padding it with null cells as needed |
| `Sheet.Worksheet.GetCell` | backend/src/index.ts:170 | the read `row.getCell(col).value`: the cell at (r, c), null when it was never written |
| `Sheet.Worksheet.CellCount` | backend/src/index.ts:161 | `getRow(r).cellCount`: the width of row r, 0 for a row never written |
| `Attendance.TotalColumns` | backend/src/index.ts:160-161 | `worksheet.getRow(1).cellCount` |
| `Attendance.MarkedColumn` | backend/src/index.ts:167-175 | the `eachRow` pass for one column sets `foundP`: some row numbered above 2 holds exactly "P" there |
| `Attendance.ScanFrom` | backend/src/index.ts:164-180 | the downward scan from a column to column 3, stopping at the first marked column; `totalColumns` when none is marked |
| `Attendance.LastLectureCol` | backend/src/index.ts:164-180 | the scan started at `totalColumns` |
| `Attendance.PresentCount` | backend/src/index.ts:192-198 | the number of cells exactly equal to "P" in columns 3 to `last` of a row |
| `Attendance.Percentage` | backend/src/index.ts:200-202 | `(presentCount / lectureCount) * 100` as an exact real when `lectureCount > 0`, otherwise 0 |
| `Attendance.Score` | backend/src/index.ts:181-204 | the cell written for a row: its percentage with `lectureCount = lastLectureCol - 3 + 1` |
| `Attendance.Labelled` | backend/src/index.ts:184-186 | the sheet with "Attendance %" at (1, totalColumns+1) and "" at (2, totalColumns+1) |
| `Attendance.ScoredRows` | backend/src/index.ts:189-206 | every row from row 3 on gets its score at column total+1; rows 1 and 2 are kept |
| `Attendance.WithAttendance` | backend/src/index.ts:160-206 | the labelled sheet with every row from row 3 on scored, using the scan's last lecture column |
| `Text.Payload` | backend/src/index.ts:46 | `image.split(',')[1] \|\| image`: the second comma-separated field when it exists and is non-empty, otherwise the whole string |
| `Text.IsolatePayload` | backend/src/index.ts:43-46 | a falsy `image` is the missing-image error; a truthy non-string throws at `split`; a string gives its payload |
| `Text.IsSpace` | backend/src/index.ts:124 | the characters `trim` removes: ECMAScript white space and line terminators |
| `Text.TrimStart` | backend/src/index.ts:124 | the text after the leading white space: a suffix, preceded only by white space, not starting with white space |
| `Text.TrimEnd` | backend/src/index.ts:124 | the text before the trailing white space: a prefix, followed only by white space, not ending with white space |
| `Text.Trim` | backend/src/index.ts:124 | `trim()`: both ends stripped |
| `Text.Clean` | backend/src/index.ts:124 | `replace(/```json\|```/g, '').trim()`, the text given to `JSON.parse` |
| `Text.RemoveSeparators` | backend/src/index.ts:210 | `replace(/[:.-]/g, '')`: the text without ':', '.' and '-', none of which is left |
| `Text.ReplaceFirstT` | backend/src/index.ts:211 | `replace('T', '_')`: only the first 'T' becomes '_' |
| `Text.FileName` | backend/src/index.ts:209-213 | `data_` + the first 15 characters of the cleaned ISO time + `.xlsx` |
| `Handler.Convert` | backend/src/index.ts:128-206 | the sheet the handler serialises: the normalised table with its attendance column, or the normaliser's error |
| `Handler.Handle` | backend/src/index.ts:42-213 | the image check and payload first, then the sheet and the file name; the first error wins |
| `JsonModel.FieldLast` | backend/src/index.ts:143 | `row[key] ?? null` on an object gives the value of the member with that key, whatever it is (also "", 0 or false); with a repeated key, the last one |
| `JsonModel.FieldAbsent` | backend/src/index.ts:143 | a key the object does not have reads as null |
| `JsonModel.AddNew` | backend/src/index.ts:149 | `columns.add(k)`: afterwards the set holds exactly the old elements and `k`, stays duplicate-free, keeps the old elements in their order as a prefix, and grows by one element exactly when `k` was new |
| `JsonModel.Dedup` | backend/src/index.ts:148-150 | the `Set` built by adding keys in turn holds each key once, and exactly the keys added |
| `JsonModel.DedupFirstSeenOrder` | backend/src/index.ts:148-150 | the `Set`'s elements come in the order in which each was first added |
| `Sheet.PutAt` | backend/src/index.ts:184-186 | writing `getCell(c).value` of row r changes that one cell and no other |
| `Sheet.Worksheet.AddRow` | backend/src/index.ts:135 | `addRow` appends exactly one row and leaves the others alone |
| `Sheet.Worksheet.SetCell` | backend/src/index.ts:204 | a cell write yields the grid with that one cell replaced |
| `Normaliser.RowCells` | backend/src/index.ts:134-136 | `addRow` of a header row that is an array gives one cell per element, in order; any other value gives an empty row |
| `Normaliser.Project` | backend/src/index.ts:143 | a projected row has one cell per key, cell j holding `row[keys[j]] ?? null` |
| `Normaliser.NormaliseOutcome` | backend/src/index.ts:132-158 | null throws; a value neither structured (truthy `headers` and `data`) nor an array is an invalid format; a structured table fails exactly when `headers` or `data` is not an array, or a row cannot be projected (`headers[0]` not an array, or a null row with keys to read); an array fails exactly when it holds null |
| `Normaliser.StructuredShape` | backend/src/index.ts:132-145 | the sheet has \|headers\| + \|data\| rows; the header rows are copied verbatim and in order; data row i has \|headers[0]\| cells, cell j being `data[i][headers[0][j]]`, or null when that is absent or the row is not an object |
| `Normaliser.KeyStreamOccurs` | backend/src/index.ts:148-149 | a key is among the keys met while reading every row's `Object.keys` exactly when some row is an object with a member of that name |
| `Normaliser.ColumnsSpec` | backend/src/index.ts:148-150 | the flat columns list every key occurring in any row exactly once, in first-seen order |
| `Normaliser.FlatShape` | backend/src/index.ts:146-155 | an array without null rows gives one header row of the columns, then one row per element, each with one cell per column, null-padded |
| `Normaliser.CollectColumns` | backend/src/index.ts:148-150 | the nested loop adding keys to the `Set` yields the flat columns: duplicate-free, exactly the keys that occur; `Object.keys(null)` throws |
| `Normaliser.AddKeys` | backend/src/index.ts:149 | adding one row's keys to the `Set` in turn gives the insertion-ordered set of everything added so far |
| `Normaliser.AddProjected` | backend/src/index.ts:152-155 | the flat data loop appends exactly one projected row per input row, in order |
| `Normaliser.FillStructured` | backend/src/index.ts:132-145 | the `forEach`/`addRow` loops append exactly the structured rows, or throw exactly when the specification function does |
| `Normaliser.FillFlat` | backend/src/index.ts:146-155 | the flat loops append exactly the flat rows, or throw exactly when the specification function does |
| `Normaliser.Fill` | backend/src/index.ts:132-158 | filling the worksheet appends exactly `Normalise(json)`, or reports its error; rows are only ever appended |
| `Attendance.ScanFromSpec` | backend/src/index.ts:164-180 | the scan from column `col` down to column 3 returns the largest marked column in that range, or `totalColumns` when there is none |
| `Attendance.LastLectureColSpec` | backend/src/index.ts:160-180 | `lastLectureCol` is the largest column in 3..totalColumns holding "P" in some row numbered above 2, or `totalColumns` when there is none; either way at most `totalColumns` |
| `Attendance.FindLastLectureCol` | backend/src/index.ts:160-180 | the downward loop with `foundP` and `break` computes that column, with the same characterisation |
| `Attendance.PresentCountSpec` | backend/src/index.ts:192-198 | `presentCount` is the number of columns in 3..lastLectureCol whose cell is exactly "P"; it is at most the number of lecture columns |
| `Attendance.OnlyMarkCounts` | backend/src/index.ts:194-197 | a cell that is not the string "P" (e.g. "p", a number, `true`) never counts: replacing it by another such value leaves the count unchanged |
| `Attendance.CountPresent` | backend/src/index.ts:192-198 | the upward loop counts exactly the "P" cells of columns 3..lastLectureCol, between 0 and `lectureCount` |
| `Attendance.PercentageBounds` | backend/src/index.ts:200-202 | with `presentCount <= lectureCount` the percentage lies in [0, 100]; it is 0 when `lectureCount <= 0` or nothing is present, and 100 when every lecture is present |
| `Attendance.WithAttendanceAt` | backend/src/index.ts:184-206 | every cell afterwards: the label at (1, totalColumns+1), "" at (2, totalColumns+1), the row's score at (r, totalColumns+1) for rows 3 to the last, and the old cell everywhere else |
| `Attendance.WithAttendanceSpec` | backend/src/index.ts:184-206 | row 1 gets "Attendance %" and row 2 gets "" at column totalColumns+1; every row numbered above 2 gets its score there, a percentage in [0, 100]; no other cell changes; the sheet grows to at least 2 rows and no further |
| `Attendance.NoMarkFallback` | backend/src/index.ts:164-181 | when no lecture cell holds "P", `lastLectureCol` is `totalColumns` and every scored row gets 0 |
| `Attendance.Row2NeverScored` | backend/src/index.ts:167-191 | row 2 is never scanned (changing it never moves `lastLectureCol`) and never scored (it gets "") |
| `Attendance.ScoreRow` | backend/src/index.ts:191-204 | the `eachRow` callback writes the row's score into column totalColumns+1 of that row only |
| `Attendance.WriteLabels` | backend/src/index.ts:184-186 | the two header writes yield the labelled sheet |
| `Attendance.ScoreRows` | backend/src/index.ts:189-206 | the `eachRow` loop scores every row numbered above 2 and leaves rows 1 and 2 alone |
| `Attendance.AddAttendance` | backend/src/index.ts:160-206 | the worksheet afterwards is exactly `WithAttendance` of the worksheet before |
| `Text.Split` | backend/src/index.ts:46 | `split(sep)` yields at least one field, none containing the separator |
| `Text.JoinSplit` | backend/src/index.ts:46 | joining the fields of a split with the separator gives back the string |
| `Text.SplitJoin` | backend/src/index.ts:46 | splitting a join of separator-free fields gives back the fields |
| `Text.PayloadNoComma` | backend/src/index.ts:46 | an image string without a comma is its own payload |
| `Text.PayloadAfterComma` | backend/src/index.ts:46 | with a comma, the payload is the text between the first and second comma (or the end) when that text is non-empty, and the whole string otherwise (e.g. a trailing comma) |
| `Text.IsolatePayloadSpec` | backend/src/index.ts:42-46 | an absent, null, false, 0 or empty `image` is rejected as missing, and only such a value is; a payload is produced exactly for a non-empty string, and a comma-free string is its own payload |
| `Text.StripFences` | backend/src/index.ts:124 | removing the fences never lengthens the text |
| `Text.TrimSpec` | backend/src/index.ts:124 | `trim` keeps a contiguous part of the text, removes only white space around it, and leaves no white space at either end |
| `Text.CleanNotLonger` | backend/src/index.ts:124 | the cleaned reply is never longer than the reply |
| `Text.CleanWithoutFence` | backend/src/index.ts:124 | a reply containing no "```" is only trimmed |
| `Text.CleanFencedBlock` | backend/src/index.ts:124 | "```json\n" + body + "\n```" cleans to the body, for a body without backticks and without white space at its ends |
| `Text.Take` | backend/src/index.ts:212 | `slice(0, n)` is the prefix of length min(n, length) |
| `Text.FileNameOfIso` | backend/src/index.ts:209-213 | the ISO time "YYYY-MM-DDTHH:mm:ss.sssZ" gives the file name "data_YYYYMMDD_HHmmss.xlsx" |
| `Handler.HandleSpec` | backend/src/index.ts:42-213 | a missing image is rejected whatever the table; a truthy image that is not a string throws at `split` (TypeError); with a string image, a rejected table yields its error and no sheet; the request succeeds if and only if the image is a non-empty string and the table normalises, and a success carries the payload, the normalised table with its attendance column, and the file name |
| `Handler.ExtractSheet` | backend/src/index.ts:128-206 | a fresh worksheet ends up holding exactly the normalised table with its attendance column, or the error is reported |
| `Handler.TableGrid` | backend/src/index.ts:132-145 | the two-header-row example tables the prompt asks for become the two header rows plus one four-cell row per student |
| `Handler.ExampleScores` | backend/src/index.ts:160-206 | for every table of the prompt's form, the sheet is the normalised table with its attendance column, four columns wide, and student row r holds its score in column 5 |
| `Handler.EmptyTableLabelsOnly` | backend/src/index.ts:132-186 | `{headers: [], data: []}` gives a sheet of just "Attendance %" in A1 and "" in A2 |
| `Handler.OneOfTwoScoresFifty` | backend/src/index.ts:160-206 | with both practicals marked by someone, two "P" give 100 and one "P" gives 50 |
| `Handler.TrailingUnmarkedColumnIgnored` | backend/src/index.ts:164-181 | a column no one is marked in, right of the last marked column, is left out of the lecture count: one "P" beside a blank "Prac 2" gives 100 |
| `Handler.OnlyUppercasePCounts` | backend/src/index.ts:164-202 | "p", `true` and 1 are not marks: such a table falls back to all columns and scores 0 |

## Left out

- HTTP plumbing is not modelled: Express routing, status codes, the 10 MB body limit and the
  listening port (lines 13-15, 40, 43, 224, 229). The model keeps only which error kind a
  request ends in.
- The Gemini client, the file upload, the chat session and the prompt text (lines 18-31,
  52-123) are calls to an external service. `JSON.parse` (line 125) is taken as given: the
  normaliser receives an already parsed `Json` value, and `Text.Clean` is not connected to it.
- Base64 decoding with `Buffer.from` (line 47) is not modelled. Neither are the temporary file
  at the fixed path `temp.png` (48-49), its removal on success only (221), the `downloads`
  directory and the saved copy (33-38, 215). These are file-system I/O; the shared fixed path
  is a concurrency hazard.
- ExcelJS serialisation and streaming (lines 128-129, 216-218) are a library this model does
  not see. `getCell` reading a missing cell creates it in ExcelJS; the model treats reads as
  pure, since only null cells are created and nothing reads their count.
- `eachRow` skipping rows whose cells are all null is not modelled (see the assumption above).
- ExcelJS's column limit is not modelled. ExcelJS addresses at most 16384 columns, so in the
  code an `addRow` of a wider row, or `getCell(totalColumns + 1)` when `totalColumns` is 16384,
  throws and the request fails with status 500. The model places cells in any column.
- `toFixed(2)` and the floating-point division (lines 201, 204) are replaced by the exact
  rational percentage held in `Percent`.
- `new Date().toISOString()` (line 209) is the clock. `Text.FileName` takes the ISO text as a
  parameter.
- JavaScript property lookup beyond an object's own members is not modelled. Such lookups
  read as null:
  - inherited properties such as `constructor` or `toString`;
  - `length` and index keys of string or array rows.
- Header keys that are numbers, arrays or objects (JavaScript would stringify them) read as
  null. String, null and boolean keys are converted as JavaScript does.
- `Object.keys` of a string or array row in the flat shape (its index keys) is modelled as
  having no keys. The ordering `Object.keys` gives integer-like keys (ascending, before all
  others) is not modelled: keys keep source order.
- ExcelJS interpreting object cell values as hyperlinks, formulas or rich text is not
  modelled. Cells keep the JSON value, which is never strictly equal to "P" anyway.
- JSON numbers are unbounded reals; `-0` and `0` coincide, and NaN cannot arise from parsing.
- Error messages are not modelled, only the kind of error.
- Normaliser.Fill: on a throw it promises only that rows were appended, not which ones; the
  handler discards the workbook on that path.
- Normaliser.FillStructured: the same for a throw part-way through the structured loops.
- Normaliser.FillFlat: the same for a throw in the flat loops.
