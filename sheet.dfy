/** The worksheet as the handler sees it: rows and columns numbered from 1, a cell that was
    never written reads as null, and writing a cell beyond the end of a row or of the sheet
    extends it. */
module Sheet {
  import opened JsonModel

  /** A cell holds a JSON value copied from the table, or an attendance percentage.
      Percent(p) stands for the text `p.toFixed(2) + "%"` the handler writes. */
  datatype Cell = Value(v: Json) | Percent(p: real)

  type Grid = seq<seq<Cell>>

  const Empty: Cell := Value(Null)

  /** Cell `c` (from 1) of a row. */
  function RowAt(row: seq<Cell>, c: int): Cell {
    if 1 <= c <= |row| then row[c - 1] else Empty
  }

  /** Row `r` (from 1) of a grid; a row never written has no cells. */
  function RowOf(g: Grid, r: int): seq<Cell> {
    if 1 <= r <= |g| then g[r - 1] else []
  }

  /** Cell (`r`, `c`) (both from 1) of a grid. */
  function At(g: Grid, r: int, c: int): Cell {
    RowAt(RowOf(g, r), c)
  }

  /** Writes `v` into cell `c` of a row, padding the row with null cells. */
  function PutInRow(row: seq<Cell>, c: int, v: Cell): (r: seq<Cell>)
    requires c >= 1
    ensures |r| == if c <= |row| then |row| else c
    ensures RowAt(r, c) == v
    ensures forall k :: 1 <= k && k != c ==> RowAt(r, k) == RowAt(row, k)
  {
    if c <= |row| then row[c - 1 := v] else row + seq(c - 1 - |row|, _ => Empty) + [v]
  }

  /** Writes `v` into cell (`r`, `c`) of a grid, adding rows when `r` lies below the last one. */
  function Put(g: Grid, r: int, c: int, v: Cell): (h: Grid)
    requires r >= 1 && c >= 1
    ensures |h| == if r <= |g| then |g| else r
    ensures forall i :: 0 <= i < |g| && i != r - 1 ==> h[i] == g[i]
  {
    if r <= |g| then g[r - 1 := PutInRow(g[r - 1], c, v)]
    else g + seq(r - 1 - |g|, _ => []) + [PutInRow([], c, v)]
  }

  /** Writing one cell changes that cell and no other. */
  lemma PutAt(g: Grid, r: int, c: int, v: Cell, r': int, c': int)
    requires r >= 1 && c >= 1
    ensures At(Put(g, r, c, v), r', c') == if r' == r && c' == c then v else At(g, r', c')
  {
    var h := Put(g, r, c, v);
    if r' == r && r > |g| {
      assert h[r - 1] == PutInRow([], c, v);
    } else if 1 <= r' <= |h| && r' > |g| {
      assert h[r' - 1] == [];
    }
  }

  /** An ExcelJS worksheet reduced to the values of its cells. */
  class Worksheet {
    var rows: Grid

    constructor ()
      ensures rows == []
    {
      rows := [];
    }

    /** `worksheet.addRow(values)`: appends a row. */
    method AddRow(values: seq<Cell>)
      modifies this
      ensures rows == old(rows) + [values]
    {
      rows := rows + [values];
    }

    /** `worksheet.getRow(r).cellCount`: the width of row `r`, 0 for a row never written. */
    function CellCount(r: int): (n: nat)
      reads this
      ensures 1 <= r <= |rows| ==> n == |rows[r - 1]|
      ensures !(1 <= r <= |rows|) ==> n == 0
    {
      if 1 <= r <= |rows| then |rows[r - 1]| else 0
    }

    /** `worksheet.getRow(r).getCell(c).value`. */
    function GetCell(r: int, c: int): Cell
      reads this
    {
      At(rows, r, c)
    }

    /** `worksheet.getRow(r).getCell(c).value = v`. */
    method SetCell(r: int, c: int, v: Cell)
      requires r >= 1 && c >= 1
      modifies this
      ensures rows == Put(old(rows), r, c, v)
    {
      rows := Put(rows, r, c, v);
    }
  }
}
