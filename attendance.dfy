/** The attendance column of the /extract_data handler (backend/src/index.ts, lines 160-206):
    find the last column holding a presence mark, then give every row below the two header
    rows the share of marks among the lecture columns. */
module Attendance {
  import opened JsonModel
  import opened Sheet

  /** The first attendance column; columns 1 and 2 hold the roll number and the name. */
  const AttendanceStart: int := 3

  /** The presence mark. Only a cell strictly equal to the string "P" counts. */
  const Marker: Cell := Value(Str("P"))

  const Label: Cell := Value(Str("Attendance %"))

  const Blank: Cell := Value(Str(""))

  // ---------------------------------------------------------------------------------------
  // Specification

  /** `worksheet.getRow(1).cellCount`. */
  function TotalColumns(g: Grid): nat {
    if |g| > 0 then |g[0]| else 0
  }

  /** Some row numbered above 2 holds the mark in column `c`. */
  predicate MarkedColumn(g: Grid, c: int) {
    exists r :: 3 <= r <= |g| && At(g, r, c) == Marker
  }

  /** The downward scan from column `col` to column 3; the width of row 1 when no column in
      that range is marked. */
  function ScanFrom(g: Grid, col: int): int
    decreases col
  {
    if col < AttendanceStart then TotalColumns(g)
    else if MarkedColumn(g, col) then col
    else ScanFrom(g, col - 1)
  }

  function LastLectureCol(g: Grid): int {
    ScanFrom(g, TotalColumns(g))
  }

  /** The number of marks in columns 3 to `last` of a row. */
  function PresentCount(row: seq<Cell>, last: int): nat
    decreases last
  {
    if last < AttendanceStart then 0
    else PresentCount(row, last - 1) + (if RowAt(row, last) == Marker then 1 else 0)
  }

  /** The exact value behind `(presentCount / lectureCount) * 100`, or 0 when there is no
      lecture column. */
  function Percentage(present: nat, lectures: int): real {
    if lectures > 0 then (present as real) * 100.0 / (lectures as real) else 0.0
  }

  /** The cell a scored row gets in column `totalColumns + 1`. */
  function Score(row: seq<Cell>, last: int): Cell {
    Percent(Percentage(PresentCount(row, last), last - AttendanceStart + 1))
  }

  /** The two header rows after their cells in column `totalColumns + 1` are written. */
  function Labelled(g: Grid): Grid {
    var total := TotalColumns(g);
    Put(Put(g, 1, total + 1, Label), 2, total + 1, Blank)
  }

  /** Every row from row 3 on with its score written into column `total + 1`. */
  function ScoredRows(h: Grid, total: nat, last: int): (k: Grid)
    ensures |k| == |h|
    ensures forall i :: 0 <= i < |h| ==>
              k[i] == if i < 2 then h[i] else PutInRow(h[i], total + 1, Score(h[i], last))
  {
    seq(|h|, i requires 0 <= i < |h| =>
      if i < 2 then h[i] else PutInRow(h[i], total + 1, Score(h[i], last)))
  }

  /** The worksheet after lines 160-206: the label in row 1, an empty string in row 2 and the
      score of every other row, all in column `totalColumns + 1`. */
  function WithAttendance(g: Grid): Grid {
    ScoredRows(Labelled(g), TotalColumns(g), LastLectureCol(g))
  }

  // ---------------------------------------------------------------------------------------
  // Properties

  lemma {:induction false} ScanFromSpec(g: Grid, col: int)
    requires col <= TotalColumns(g)
    ensures var last := ScanFrom(g, col);
      && last <= TotalColumns(g)
      && ((exists c :: AttendanceStart <= c <= col && MarkedColumn(g, c)) ==>
            AttendanceStart <= last <= col && MarkedColumn(g, last) &&
            forall c :: last < c <= col ==> !MarkedColumn(g, c))
      && ((forall c :: AttendanceStart <= c <= col ==> !MarkedColumn(g, c)) ==> last == TotalColumns(g))
    decreases col
  {
    if col >= AttendanceStart && !MarkedColumn(g, col) {
      ScanFromSpec(g, col - 1);
    }
  }

  /** `lastLectureCol` is the largest column from 3 to `totalColumns` marked in some row
      numbered above 2, and `totalColumns` when there is none; never beyond `totalColumns`. */
  lemma LastLectureColSpec(g: Grid)
    ensures var total, last := TotalColumns(g), LastLectureCol(g);
      && last <= total
      && ((exists c :: AttendanceStart <= c <= total && MarkedColumn(g, c)) ==>
            AttendanceStart <= last && MarkedColumn(g, last) &&
            forall c :: last < c <= total ==> !MarkedColumn(g, c))
      && ((forall c :: AttendanceStart <= c <= total ==> !MarkedColumn(g, c)) ==> last == total)
  {
    ScanFromSpec(g, TotalColumns(g));
  }

  /** The columns from 3 to `last` that hold the mark in a row. */
  function MarkedCells(row: seq<Cell>, last: int): set<int> {
    set c | AttendanceStart <= c <= last && RowAt(row, c) == Marker
  }

  /** The count is the number of lecture columns whose cell is exactly the mark, so it lies
      between 0 and the number of lecture columns. */
  lemma {:induction false} PresentCountSpec(row: seq<Cell>, last: int)
    ensures PresentCount(row, last) == |MarkedCells(row, last)|
    ensures PresentCount(row, last) <= if last < AttendanceStart then 0 else last - AttendanceStart + 1
    decreases last
  {
    if last >= AttendanceStart {
      PresentCountSpec(row, last - 1);
      var before := MarkedCells(row, last - 1);
      if RowAt(row, last) == Marker {
        assert MarkedCells(row, last) == before + {last};
      } else {
        assert MarkedCells(row, last) == before;
      }
    }
  }

  /** A lowercase "p", a number, `true` or anything else but the string "P" never counts:
      replacing a cell that is not the mark by another such value changes no count. */
  lemma {:induction false} OnlyMarkCounts(row: seq<Cell>, last: int, c: int, v: Cell)
    requires 1 <= c <= |row| && row[c - 1] != Marker && v != Marker
    ensures PresentCount(row[c - 1 := v], last) == PresentCount(row, last)
    decreases last
  {
    if last >= AttendanceStart {
      OnlyMarkCounts(row, last - 1, c, v);
    }
  }

  /** The percentage lies in [0, 100] whenever a row has at most as many marks as there are
      lecture columns, and it is 0 when there is no lecture column. */
  lemma PercentageBounds(present: nat, lectures: int)
    requires lectures <= 0 || present <= lectures
    ensures 0.0 <= Percentage(present, lectures) <= 100.0
    ensures lectures <= 0 ==> Percentage(present, lectures) == 0.0
    ensures present == 0 ==> Percentage(present, lectures) == 0.0
    ensures lectures > 0 && present == lectures ==> Percentage(present, lectures) == 100.0
  {
    if lectures > 0 {
      var p, l := present as real, lectures as real;
      assert p * 100.0 <= l * 100.0;
      assert p * 100.0 / l <= l * 100.0 / l;
    }
  }

  lemma LabelledAt(g: Grid, r: int, c: int)
    ensures At(Labelled(g), r, c) ==
      if c == TotalColumns(g) + 1 && r == 1 then Label
      else if c == TotalColumns(g) + 1 && r == 2 then Blank
      else At(g, r, c)
  {
    var total := TotalColumns(g);
    PutAt(Put(g, 1, total + 1, Label), 2, total + 1, Blank, r, c);
    PutAt(g, 1, total + 1, Label, r, c);
  }

  lemma ScoredAt(h: Grid, total: nat, last: int, r: int, c: int)
    ensures At(ScoredRows(h, total, last), r, c) ==
      if 3 <= r <= |h| && c == total + 1 then Score(RowOf(h, r), last) else At(h, r, c)
  {
  }

  /** A score is a percentage in [0, 100], whatever the last lecture column. */
  lemma ScoreBounds(row: seq<Cell>, last: int)
    ensures 0.0 <= Score(row, last).p <= 100.0
  {
    PresentCountSpec(row, last);
    PercentageBounds(PresentCount(row, last), last - AttendanceStart + 1);
  }

  /** Every cell of the sheet after the attendance column is added, in terms of the sheet
      before. */
  lemma WithAttendanceAt(g: Grid, r: int, c: int)
    ensures var total := TotalColumns(g);
      At(WithAttendance(g), r, c) ==
        if c == total + 1 && r == 1 then Label
        else if c == total + 1 && r == 2 then Blank
        else if c == total + 1 && 3 <= r <= |g| then Score(RowOf(g, r), LastLectureCol(g))
        else At(g, r, c)
  {
    var total, l := TotalColumns(g), Labelled(g);
    ScoredAt(l, total, LastLectureCol(g), r, c);
    LabelledAt(g, r, c);
    if 3 <= r <= |g| {
      assert RowOf(l, r) == RowOf(g, r);
    }
  }

  /** The column added: the label in row 1, an empty string in row 2 and in every row
      numbered above 2 the score of that row's marks in columns 3 to `lastLectureCol`, a
      percentage in [0, 100]. No other cell changes, rows 1 and 2 are never scored, and the
      sheet gains at most the two header rows. */
  lemma WithAttendanceSpec(g: Grid)
    ensures var total, last, h := TotalColumns(g), LastLectureCol(g), WithAttendance(g);
      && |h| == (if |g| < 2 then 2 else |g|)
      && At(h, 1, total + 1) == Label
      && At(h, 2, total + 1) == Blank
      && (forall r :: 3 <= r <= |g| ==>
            At(h, r, total + 1) == Score(RowOf(g, r), last) &&
            0.0 <= Score(RowOf(g, r), last).p <= 100.0)
      && (forall r, c :: c != total + 1 ==> At(h, r, c) == At(g, r, c))
  {
    var total, last := TotalColumns(g), LastLectureCol(g);
    forall r, c ensures At(WithAttendance(g), r, c) ==
        if c == total + 1 && r == 1 then Label
        else if c == total + 1 && r == 2 then Blank
        else if c == total + 1 && 3 <= r <= |g| then Score(RowOf(g, r), last)
        else At(g, r, c)
    {
      WithAttendanceAt(g, r, c);
    }
    forall r | 3 <= r <= |g| ensures 0.0 <= Score(RowOf(g, r), last).p <= 100.0 {
      ScoreBounds(RowOf(g, r), last);
    }
  }

  /** When no row numbered above 2 holds the mark in columns 3 to `totalColumns`, the count
      runs over all of them and every such row scores 0. */
  lemma NoMarkFallback(g: Grid)
    requires forall c :: AttendanceStart <= c <= TotalColumns(g) ==> !MarkedColumn(g, c)
    ensures LastLectureCol(g) == TotalColumns(g)
    ensures forall r :: 3 <= r <= |g| ==> Score(RowOf(g, r), LastLectureCol(g)) == Percent(0.0)
  {
    LastLectureColSpec(g);
    var last := LastLectureCol(g);
    forall r | 3 <= r <= |g| ensures Score(RowOf(g, r), last) == Percent(0.0) {
      PresentCountSpec(RowOf(g, r), last);
      if c :| c in MarkedCells(RowOf(g, r), last) {
        assert At(g, r, c) == Marker;
        assert MarkedColumn(g, c);
        assert false;
      }
      assert MarkedCells(RowOf(g, r), last) == {};
    }
  }

  lemma ScoreStart(h: Grid, total: nat, last: int)
    requires |h| >= 2
    ensures ScoredRows(h[..2], total, last) + h[2..] == h
  {
    var k := ScoredRows(h[..2], total, last);
    assert k == h[..2];
  }

  /** One more row scored. */
  lemma ScoreStep(h: Grid, total: nat, last: int, r: int)
    requires 3 <= r <= |h|
    ensures (ScoredRows(h[..r - 1], total, last) + h[r - 1..])[r - 1 := PutInRow(h[r - 1], total + 1, Score(h[r - 1], last))]
         == ScoredRows(h[..r], total, last) + h[r..]
  {
  }

  lemma {:induction false} ScanIgnoresRow2(g: Grid, x: seq<Cell>, col: int)
    requires |g| >= 2
    ensures ScanFrom(g[1 := x], col) == ScanFrom(g, col)
    decreases col
  {
    var h := g[1 := x];
    assert TotalColumns(h) == TotalColumns(g);
    if col >= AttendanceStart {
      assert MarkedColumn(h, col) == MarkedColumn(g, col) by {
        forall r | 3 <= r <= |g| ensures At(h, r, col) == At(g, r, col) {
          assert RowOf(h, r) == RowOf(g, r);
        }
      }
      ScanIgnoresRow2(g, x, col - 1);
    }
  }

  /** Row 2 is a header row for the scan: whatever it holds, the last lecture column stays
      the same, and row 2 is given the empty string instead of a score. In the flat shape, or
      with a single structured header row, row 2 is the first data row. */
  lemma Row2NeverScored(g: Grid, x: seq<Cell>)
    requires |g| >= 2
    ensures LastLectureCol(g[1 := x]) == LastLectureCol(g)
    ensures At(WithAttendance(g), 2, TotalColumns(g) + 1) == Blank
  {
    assert TotalColumns(g[1 := x]) == TotalColumns(g);
    ScanIgnoresRow2(g, x, TotalColumns(g));
    WithAttendanceSpec(g);
  }

  // ---------------------------------------------------------------------------------------
  // The handler's code

  /** Lines 164-180: the downward scan with the `foundP` flag and `break`. */
  method FindLastLectureCol(ws: Worksheet) returns (last: int)
    ensures last == LastLectureCol(ws.rows)
    ensures last <= TotalColumns(ws.rows)
    ensures (exists c :: AttendanceStart <= c <= TotalColumns(ws.rows) && MarkedColumn(ws.rows, c)) ==>
              AttendanceStart <= last && MarkedColumn(ws.rows, last) &&
              forall c :: last < c <= TotalColumns(ws.rows) ==> !MarkedColumn(ws.rows, c)
    ensures (forall c :: AttendanceStart <= c <= TotalColumns(ws.rows) ==> !MarkedColumn(ws.rows, c)) ==>
              last == TotalColumns(ws.rows)
  {
    var totalColumns := ws.CellCount(1);
    last := totalColumns;
    var col := totalColumns;
    while col >= AttendanceStart
      invariant col <= totalColumns
      invariant ScanFrom(ws.rows, col) == LastLectureCol(ws.rows)
      invariant last == totalColumns
    {
      var foundP := false;
      var r := 1;
      while r <= |ws.rows|
        invariant 1 <= r <= |ws.rows| + 1
        invariant foundP <==> exists rr :: 3 <= rr < r && At(ws.rows, rr, col) == Marker
      {
        if r > 2 && ws.GetCell(r, col) == Marker {
          foundP := true;
        }
        r := r + 1;
      }
      if foundP {
        last := col;
        break;
      }
      col := col - 1;
    }
    LastLectureColSpec(ws.rows);
  }

  /** Lines 192-198: the upward count of marks in columns 3 to `last`. */
  method CountPresent(row: seq<Cell>, last: int) returns (presentCount: nat)
    ensures presentCount == PresentCount(row, last)
    ensures presentCount == |MarkedCells(row, last)|
    ensures last >= AttendanceStart ==> presentCount <= last - AttendanceStart + 1
    ensures last < AttendanceStart ==> presentCount == 0
  {
    presentCount := 0;
    var col := AttendanceStart;
    while col <= last
      invariant AttendanceStart <= col <= if last < AttendanceStart then AttendanceStart else last + 1
      invariant presentCount == PresentCount(row, col - 1)
    {
      if RowAt(row, col) == Marker {
        presentCount := presentCount + 1;
      }
      col := col + 1;
    }
    PresentCountSpec(row, last);
  }

  /** Lines 191-204, the `eachRow` callback for row `r`: count, percentage, write. */
  method ScoreRow(ws: Worksheet, r: int, totalColumns: nat, lastLectureCol: int)
    requires 3 <= r <= |ws.rows|
    modifies ws
    ensures ws.rows == old(ws.rows)[r - 1 := PutInRow(old(ws.rows)[r - 1], totalColumns + 1,
                                                      Score(old(ws.rows)[r - 1], lastLectureCol))]
  {
    var lectureCount := lastLectureCol - AttendanceStart + 1;
    var presentCount := CountPresent(ws.rows[r - 1], lastLectureCol);
    var attendancePercent := Percentage(presentCount, lectureCount);
    ws.SetCell(r, totalColumns + 1, Percent(attendancePercent));
  }

  /** Lines 184-186: the label in row 1 and an empty string in row 2. */
  method WriteLabels(ws: Worksheet, totalColumns: nat)
    requires totalColumns == TotalColumns(ws.rows)
    modifies ws
    ensures ws.rows == Labelled(old(ws.rows))
  {
    ws.SetCell(1, totalColumns + 1, Label);
    ws.SetCell(2, totalColumns + 1, Blank);
  }

  /** Lines 189-206: the `eachRow` loop, scoring every row numbered above 2. */
  method ScoreRows(ws: Worksheet, totalColumns: nat, lastLectureCol: int)
    requires |ws.rows| >= 2
    modifies ws
    ensures ws.rows == ScoredRows(old(ws.rows), totalColumns, lastLectureCol)
  {
    ghost var h := ws.rows;
    ScoreStart(h, totalColumns, lastLectureCol);
    var r := 3;
    while r <= |ws.rows|
      invariant 3 <= r <= |h| + 1
      invariant ws.rows == ScoredRows(h[..r - 1], totalColumns, lastLectureCol) + h[r - 1..]
    {
      assert ws.rows[r - 1] == h[r - 1];
      ScoreRow(ws, r, totalColumns, lastLectureCol);
      ScoreStep(h, totalColumns, lastLectureCol, r);
      r := r + 1;
    }
    assert h[..|h|] == h;
  }

  /** Lines 160-206 on the worksheet. Every row is visited: ExcelJS's `eachRow` passes over
      rows whose cells are all null, which this model does not follow. */
  method AddAttendance(ws: Worksheet)
    modifies ws
    ensures ws.rows == WithAttendance(old(ws.rows))
  {
    var totalColumns := ws.CellCount(1);
    var lastLectureCol := FindLastLectureCol(ws);
    WriteLabels(ws, totalColumns);
    ScoreRows(ws, totalColumns, lastLectureCol);
  }
}
