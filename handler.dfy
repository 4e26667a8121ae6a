/** The /extract_data handler from the parsed JSON on (backend/src/index.ts, lines 40-226):
    isolate the image payload, normalise the table the model returned, add the attendance
    column and name the file. */
module Handler {
  import opened Results
  import opened JsonModel
  import opened Sheet
  import opened Normaliser
  import opened Attendance
  import opened Text

  /** The worksheet the handler serialises, or why it answers with an error. */
  function Convert(table: Json): Result<Grid, Error> {
    match Normalise(table)
    case Success(g) => Success(WithAttendance(g))
    case Failure(e) => Failure(e)
  }

  /** What a successful request produces: the base64 text decoded and uploaded, the
      worksheet and the file name. */
  datatype Reply = Reply(payload: string, sheet: Grid, fileName: string)

  /** The handler with the model's parsed reply `table` and the clock's `iso` text given. */
  function Handle(image: Json, table: Json, iso: string): Result<Reply, Error> {
    match IsolatePayload(image)
    case Failure(e) => Failure(e)
    case Success(payload) =>
      match Convert(table)
      case Failure(e) => Failure(e)
      case Success(g) => Success(Reply(payload, g, FileName(iso)))
  }

  /** A missing or empty image is rejected before anything else happens; a truthy image that
      is not a string throws at `split`; a table of neither shape is rejected without an
      attendance column; a non-empty string image with a table of either shape always
      succeeds, and the reply carries the normalised table with its attendance column. */
  lemma HandleSpec(image: Json, table: Json, iso: string)
    ensures !Truthy(image) ==> Handle(image, table, iso) == Failure(ImageRequired)
    ensures Truthy(image) && !image.Str? ==> Handle(image, table, iso) == Failure(TypeError)
    ensures Truthy(image) && image.Str? && Normalise(table).Failure? ==>
              Handle(image, table, iso) == Failure(Normalise(table).error)
    ensures Handle(image, table, iso).Success? <==>
              image.Str? && image.s != "" && Normalise(table).Success?
    ensures Handle(image, table, iso).Success? ==>
              Handle(image, table, iso).value ==
                Reply(Payload(image.s), WithAttendance(Normalise(table).value), FileName(iso))
  {
    IsolatePayloadSpec(image);
  }

  /** Lines 128-206: a new worksheet, filled from the table, with the attendance column. */
  method ExtractSheet(table: Json) returns (r: Result<Worksheet, Error>)
    ensures r.Success? <==> Convert(table).Success?
    ensures r.Failure? ==> r.error == Convert(table).error
    ensures r.Success? ==> fresh(r.value) && r.value.rows == Convert(table).value
  {
    var worksheet := new Worksheet();
    var failure := Fill(worksheet, table);
    if failure.Some? {
      return Failure(failure.value);
    }
    ghost var g := Normalise(table).value;
    assert worksheet.rows == [] + g;
    assert worksheet.rows == g;
    AddAttendance(worksheet);
    assert Convert(table) == Success(WithAttendance(g));
    return Success(worksheet);
  }

  // ---------------------------------------------------------------------------------------
  // Worked examples with the two-header-row table the extraction prompt asks for

  const P: Json := Str("P")

  const Headers: Json := Arr([
    Arr([Str("Roll No"), Str("Name"), Str("Prac 1"), Str("Prac 2")]),
    Arr([Str(""), Str(""), Str("04/01"), Str("05/01")])])

  function Student(roll: string, name: string, prac1: Json, prac2: Json): Json {
    Obj([Member("Roll No", Str(roll)), Member("Name", Str(name)),
         Member("Prac 1", prac1), Member("Prac 2", prac2)])
  }

  function Table(rows: seq<Json>): Json {
    Obj([Member("headers", Headers), Member("data", Arr(rows))])
  }

  function StudentCells(roll: string, name: string, prac1: Json, prac2: Json): seq<Cell> {
    [Value(Str(roll)), Value(Str(name)), Value(prac1), Value(prac2)]
  }

  lemma StudentProjected(roll: string, name: string, prac1: Json, prac2: Json)
    ensures Project(Headers.items[0].items, Student(roll, name, prac1, prac2))
         == StudentCells(roll, name, prac1, prac2)
  {
    var ms := Student(roll, name, prac1, prac2).members;
    FieldLast(ms, "Roll No", 0);
    FieldLast(ms, "Name", 1);
    FieldLast(ms, "Prac 1", 2);
    FieldLast(ms, "Prac 2", 3);
  }

  lemma TableHeaders(rows: seq<Json>)
    ensures IsStructured(Table(rows))
    ensures Field(Table(rows).members, "headers") == Headers
    ensures Field(Table(rows).members, "data") == Arr(rows)
  {
    FieldLast(Table(rows).members, "headers", 0);
    FieldLast(Table(rows).members, "data", 1);
  }

  /** One student per tuple: roll number, name, the "Prac 1" cell and the "Prac 2" cell. */
  function Students(ss: seq<(string, string, Json, Json)>): (rows: seq<Json>)
    ensures |rows| == |ss|
    ensures forall i :: 0 <= i < |ss| ==> rows[i] == Student(ss[i].0, ss[i].1, ss[i].2, ss[i].3)
  {
    seq(|ss|, i requires 0 <= i < |ss| => Student(ss[i].0, ss[i].1, ss[i].2, ss[i].3))
  }

  function StudentGrid(ss: seq<(string, string, Json, Json)>): Grid {
    HeaderRows(Headers.items) +
      seq(|ss|, i requires 0 <= i < |ss| => StudentCells(ss[i].0, ss[i].1, ss[i].2, ss[i].3))
  }

  /** The example tables normalise to the two header rows and one row of four cells per
      student. */
  lemma TableGrid(ss: seq<(string, string, Json, Json)>)
    ensures Normalise(Table(Students(ss))) == Success(StudentGrid(ss))
  {
    var rows := Students(ss);
    TableHeaders(rows);
    var keys := HeaderKeys(Headers.items);
    forall i | 0 <= i < |rows| ensures Project(KeyList(keys), rows[i]) == StudentCells(ss[i].0, ss[i].1, ss[i].2, ss[i].3) {
      StudentProjected(ss[i].0, ss[i].1, ss[i].2, ss[i].3);
    }
    assert !exists i :: 0 <= i < |rows| && ProjectionThrows(keys, rows[i]);
    assert ProjectAll(KeyList(keys), rows)
        == seq(|ss|, i requires 0 <= i < |ss| => StudentCells(ss[i].0, ss[i].1, ss[i].2, ss[i].3));
  }

  /** Student i is sheet row i + 3, below the two header rows. */
  lemma StudentRows(ss: seq<(string, string, Json, Json)>)
    ensures |StudentGrid(ss)| == |ss| + 2
    ensures forall r :: 3 <= r <= |ss| + 2 ==>
      RowOf(StudentGrid(ss), r) == StudentCells(ss[r - 3].0, ss[r - 3].1, ss[r - 3].2, ss[r - 3].3)
  {
  }

  lemma ExampleScores(ss: seq<(string, string, Json, Json)>)
    ensures Convert(Table(Students(ss))) == Success(WithAttendance(StudentGrid(ss)))
    ensures TotalColumns(StudentGrid(ss)) == 4
    ensures forall r :: 3 <= r <= |ss| + 2 ==>
      At(Convert(Table(Students(ss))).value, r, 5) ==
        Score(RowOf(StudentGrid(ss), r), LastLectureCol(StudentGrid(ss)))
  {
    TableGrid(ss);
    WithAttendanceSpec(StudentGrid(ss));
  }

  /** An empty structured table: the normaliser adds no rows, and the attendance step still
      creates rows 1 and 2 for its label and its blank. */
  lemma EmptyTableLabelsOnly()
    ensures Convert(Obj([Member("headers", Arr([])), Member("data", Arr([]))])) == Success([[Label], [Blank]])
  {
    var ms := [Member("headers", Arr([])), Member("data", Arr([]))];
    FieldLast(ms, "headers", 0);
    FieldLast(ms, "data", 1);
    assert IsStructured(Obj(ms));
    assert HeaderRows([]) == [] && ProjectAll(KeyList(HeaderKeys([])), []) == [];
    assert Normalise(Obj(ms)) == Structured(Arr([]), Arr([]));
    assert Structured(Arr([]), Arr([])) == Success(HeaderRows([]) + ProjectAll(KeyList(HeaderKeys([])), []));
    assert LastLectureCol([]) == 0;
    assert PutInRow([], 1, Label) == [Label];
    assert Put([], 1, 1, Label) == [[Label]];
    assert PutInRow([], 1, Blank) == [Blank];
    assert Put([[Label]], 2, 1, Blank) == [[Label], [Blank]];
    assert ScoredRows([[Label], [Blank]], 0, 0) == [[Label], [Blank]];
  }

  /** A student present at both practicals scores 100; one present at the first of two
      practicals held scores 50. */
  lemma OneOfTwoScoresFifty()
    ensures var ss := [("01", "A", P, P), ("02", "B", P, Null)];
      var g := Convert(Table(Students(ss)));
      g.Success? && At(g.value, 3, 5) == Percent(100.0) && At(g.value, 4, 5) == Percent(50.0)
  {
    var ss := [("01", "A", P, P), ("02", "B", P, Null)];
    var grid := StudentGrid(ss);
    ExampleScores(ss);
    OneOfTwoCounts();
    assert Score(RowOf(grid, 3), 4) == Percent(Percentage(2, 2));
    assert Score(RowOf(grid, 4), 4) == Percent(Percentage(1, 2));
  }

  lemma OneOfTwoCounts()
    ensures var grid := StudentGrid([("01", "A", P, P), ("02", "B", P, Null)]);
      LastLectureCol(grid) == 4 && PresentCount(RowOf(grid, 3), 4) == 2 && PresentCount(RowOf(grid, 4), 4) == 1
  {
    var ss := [("01", "A", P, P), ("02", "B", P, Null)];
    var grid := StudentGrid(ss);
    StudentRows(ss);
    assert RowOf(grid, 3) == StudentCells("01", "A", P, P);
    assert RowOf(grid, 4) == StudentCells("02", "B", P, Null);
    assert At(grid, 3, 4) == Marker;
  }

  /** With no mark in "Prac 2" anywhere, the last lecture column is "Prac 1": a student
      marked there scores 100, not 50. */
  lemma TrailingUnmarkedColumnIgnored()
    ensures var ss := [("01", "A", P, Null)];
      var g := Convert(Table(Students(ss)));
      g.Success? && LastLectureCol(StudentGrid(ss)) == 3 && At(g.value, 3, 5) == Percent(100.0)
  {
    var ss := [("01", "A", P, Null)];
    var grid := StudentGrid(ss);
    ExampleScores(ss);
    StudentRows(ss);
    assert RowOf(grid, 3) == StudentCells("01", "A", P, Null);
    assert !MarkedColumn(grid, 4) by {
      forall r | 3 <= r <= |grid| ensures At(grid, r, 4) != Marker {
        assert r == 3;
      }
    }
    assert At(grid, 3, 3) == Marker;
    assert LastLectureCol(grid) == 3;
    assert PresentCount(RowOf(grid, 3), 3) == 1;
  }

  /** Only the string "P" is a mark: "p", `true` and 1 are not, so a table holding only
      those falls back to all columns and scores 0. */
  lemma OnlyUppercasePCounts()
    ensures var ss := [("01", "A", Str("p"), Bool(true)), ("02", "B", Num(1.0), Null)];
      var g := Convert(Table(Students(ss)));
      g.Success? && LastLectureCol(StudentGrid(ss)) == 4 &&
      At(g.value, 3, 5) == Percent(0.0) && At(g.value, 4, 5) == Percent(0.0)
  {
    var ss := [("01", "A", Str("p"), Bool(true)), ("02", "B", Num(1.0), Null)];
    ExampleScores(ss);
    NearMarksUnmarked();
    NoMarkFallback(StudentGrid(ss));
  }

  lemma NearMarksUnmarked()
    ensures var grid := StudentGrid([("01", "A", Str("p"), Bool(true)), ("02", "B", Num(1.0), Null)]);
      TotalColumns(grid) == 4 &&
      forall c :: AttendanceStart <= c <= TotalColumns(grid) ==> !MarkedColumn(grid, c)
  {
    var ss := [("01", "A", Str("p"), Bool(true)), ("02", "B", Num(1.0), Null)];
    var grid := StudentGrid(ss);
    StudentRows(ss);
    assert TotalColumns(grid) == 4;
    assert RowOf(grid, 3) == StudentCells("01", "A", Str("p"), Bool(true));
    assert RowOf(grid, 4) == StudentCells("02", "B", Num(1.0), Null);
    forall c | AttendanceStart <= c <= 4 ensures !MarkedColumn(grid, c) {
      forall r | 3 <= r <= |grid| ensures At(grid, r, c) != Marker {
        assert r == 3 || r == 4;
        assert c == 3 || c == 4;
      }
    }
  }
}
