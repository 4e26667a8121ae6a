/** The table normaliser of the /extract_data handler: dispatch on the shape of the parsed
    JSON and lay it out as worksheet rows (backend/src/index.ts, lines 132-158). */
module Normaliser {
  import opened Results
  import opened JsonModel
  import opened Sheet

  // ---------------------------------------------------------------------------------------
  // Specification

  /** `worksheet.addRow(values)` with a JSON value: an array gives one cell per element from
      column 1 on; any other value gives a row without cells. */
  function RowCells(values: Json): (cells: seq<Cell>)
    ensures values.Arr? ==> |cells| == |values.items|
    ensures values.Arr? ==> forall j :: 0 <= j < |cells| ==> cells[j] == Value(values.items[j])
    ensures !values.Arr? ==> cells == []
  {
    if values.Arr? then seq(|values.items|, j requires 0 <= j < |values.items| => Value(values.items[j]))
    else []
  }

  /** `headers[0]`; Null stands for `undefined` when there is no first header row. */
  function HeaderKeys(headers: seq<Json>): Json {
    if |headers| > 0 then headers[0] else Null
  }

  /** The keys a data row is projected onto (only meaningful when `keys` is an array). */
  function KeyList(keys: Json): seq<Json> {
    if keys.Arr? then keys.items else []
  }

  /** Whether `keys.map(key => row[key] ?? null)` throws: `map` is not a function of a
      non-array, and reading a property of `null` throws once there is a key to read. */
  predicate ProjectionThrows(keys: Json, row: Json) {
    !keys.Arr? || (row.Null? && |keys.items| > 0)
  }

  /** `keys.map(key => row[key] ?? null)` for a row on which it does not throw. */
  function Project(keys: seq<Json>, row: Json): (cells: seq<Cell>)
    ensures |cells| == |keys|
    ensures forall j :: 0 <= j < |keys| ==> cells[j] == Value(Lookup(row, keys[j]))
  {
    seq(|keys|, j requires 0 <= j < |keys| => Value(Lookup(row, keys[j])))
  }

  function ProjectAll(keys: seq<Json>, rows: seq<Json>): (g: Grid)
    ensures |g| == |rows| && forall i :: 0 <= i < |rows| ==> g[i] == Project(keys, rows[i])
  {
    seq(|rows|, i requires 0 <= i < |rows| => Project(keys, rows[i]))
  }

  function HeaderRows(headers: seq<Json>): (g: Grid)
    ensures |g| == |headers| && forall i :: 0 <= i < |headers| ==> g[i] == RowCells(headers[i])
  {
    seq(|headers|, i requires 0 <= i < |headers| => RowCells(headers[i]))
  }

  /** The structured shape `{headers, data}`: every header row verbatim, then every data
      object projected onto the first header row. */
  function Structured(headers: Json, data: Json): Result<Grid, Error> {
    if !headers.Arr? || !data.Arr? then Failure(TypeError)
    else
      var keys := HeaderKeys(headers.items);
      if exists i :: 0 <= i < |data.items| && ProjectionThrows(keys, data.items[i]) then Failure(TypeError)
      else Success(HeaderRows(headers.items) + ProjectAll(KeyList(keys), data.items))
  }

  /** `Object.keys(row)` of a row that is not null; only an object has keys here. */
  function KeysOf(row: Json): seq<string> {
    if row.Obj? then ObjectKeys(row.members) else []
  }

  /** Every key met when `Object.keys` of each row is read in turn, repetitions included. */
  function KeyStream(rows: seq<Json>): seq<string>
    decreases |rows|
  {
    if rows == [] then [] else KeyStream(rows[..|rows| - 1]) + KeysOf(rows[|rows| - 1])
  }

  /** The columns of the flat shape: the `Set` of keys in insertion order. */
  function Columns(rows: seq<Json>): seq<string> {
    Dedup(KeyStream(rows))
  }

  function StrKeys(names: seq<string>): (keys: seq<Json>)
    ensures |keys| == |names| && forall j :: 0 <= j < |names| ==> keys[j] == Str(names[j])
  {
    seq(|names|, j requires 0 <= j < |names| => Str(names[j]))
  }

  function NameCells(names: seq<string>): (cells: seq<Cell>)
    ensures |cells| == |names| && forall j :: 0 <= j < |names| ==> cells[j] == Value(Str(names[j]))
  {
    seq(|names|, j requires 0 <= j < |names| => Value(Str(names[j])))
  }

  predicate HasNullRow(rows: seq<Json>) {
    exists i :: 0 <= i < |rows| && rows[i].Null?
  }

  /** None of the first `n` rows is null. */
  predicate NoNullRow(rows: seq<Json>, n: int)
    requires n <= |rows|
  {
    forall k :: 0 <= k < n ==> !rows[k].Null?
  }

  /** The flat shape, an array of objects: one header row of column names, then every row
      projected onto those names. `Object.keys(null)` throws. */
  function Flat(rows: seq<Json>): Result<Grid, Error> {
    if HasNullRow(rows) then Failure(TypeError)
    else
      var cols := Columns(rows);
      Success([NameCells(cols)] + ProjectAll(StrKeys(cols), rows))
  }

  /** The structured shape `{headers, data}` of line 132: an object whose `headers` and
      `data` are both truthy. */
  predicate IsStructured(json: Json) {
    json.Obj? && Truthy(Field(json.members, "headers")) && Truthy(Field(json.members, "data"))
  }

  /** The rows the whole normaliser adds to the new worksheet, or why it throws. */
  function Normalise(json: Json): Result<Grid, Error> {
    match json
    case Null => Failure(TypeError)
    case Obj(ms) =>
      if IsStructured(json) then Structured(Field(ms, "headers"), Field(ms, "data"))
      else Failure(InvalidFormat)
    case Arr(items) => Flat(items)
    case _ => Failure(InvalidFormat)
  }

  // ---------------------------------------------------------------------------------------
  // Properties

  /** A key occurs in the flat table when some row is an object with a member of that name. */
  predicate OccursAsKey(rows: seq<Json>, k: string) {
    exists i :: 0 <= i < |rows| && rows[i].Obj? && k in MemberKeys(rows[i].members)
  }

  /** Which inputs are rejected, and how: null throws, an object that is not a structured
      table and any scalar are an invalid format, a structured table throws exactly when a
      `forEach` or `map` meets a non-array or a property of null is read, and an array
      throws exactly when it holds null. */
  lemma NormaliseOutcome(json: Json)
    ensures json.Null? ==> Normalise(json) == Failure(TypeError)
    ensures !json.Null? && !json.Arr? && !IsStructured(json) ==> Normalise(json) == Failure(InvalidFormat)
    ensures IsStructured(json) ==>
      var headers, data := Field(json.members, "headers"), Field(json.members, "data");
      (Normalise(json).Success? <==>
        headers.Arr? && data.Arr? &&
        forall i :: 0 <= i < |data.items| ==> !ProjectionThrows(HeaderKeys(headers.items), data.items[i])) &&
      (Normalise(json).Failure? ==> Normalise(json).error == TypeError)
    ensures json.Arr? ==>
      (Normalise(json).Success? <==> forall i :: 0 <= i < |json.items| ==> !json.items[i].Null?) &&
      (Normalise(json).Failure? ==> Normalise(json).error == TypeError)
  {
  }

  /** The structured shape: |headers| + |data| rows, the header rows copied verbatim and in
      order, data row i with one cell per first-header key, cell j holding
      `data[i][headers[0][j]]`: the value of that member when present (also "", 0 or false)
      and null when it is absent or null. */
  lemma {:induction false} StructuredShape(json: Json)
    requires IsStructured(json) && Normalise(json).Success?
    ensures
      var hs, ds := Field(json.members, "headers").items, Field(json.members, "data").items;
      var keys, g := KeyList(HeaderKeys(hs)), Normalise(json).value;
      var body := g[|hs|..];
      && |g| == |hs| + |ds|
      && (forall i :: 0 <= i < |hs| ==> g[i] == RowCells(hs[i]))
      && (|ds| > 0 ==> hs != [] && hs[0].Arr? && keys == hs[0].items)
      && (forall i :: 0 <= i < |ds| ==> |body[i]| == |keys|)
      && (forall i, j, m :: 0 <= i < |ds| && 0 <= j < |keys| && ds[i].Obj? && keys[j] == Str(m) ==>
            body[i][j] == Value(Field(ds[i].members, m)))
      && (forall i, j :: 0 <= i < |ds| && 0 <= j < |keys| && !ds[i].Obj? ==> body[i][j] == Empty)
  {
    var hs, ds := Field(json.members, "headers").items, Field(json.members, "data").items;
    var keys, g := KeyList(HeaderKeys(hs)), Normalise(json).value;
    assert g == HeaderRows(hs) + ProjectAll(keys, ds);
    assert g[|hs|..] == ProjectAll(keys, ds);
    if |ds| > 0 {
      assert !ProjectionThrows(HeaderKeys(hs), ds[0]);
    }
  }

  lemma {:induction false} KeyStreamOccurs(rows: seq<Json>, k: string)
    ensures k in KeyStream(rows) <==> OccursAsKey(rows, k)
    decreases |rows|
  {
    if rows != [] {
      var init, last := rows[..|rows| - 1], rows[|rows| - 1];
      KeyStreamOccurs(init, k);
      assert k in KeysOf(last) <==> last.Obj? && k in MemberKeys(last.members);
      if OccursAsKey(rows, k) {
        var i :| 0 <= i < |rows| && rows[i].Obj? && k in MemberKeys(rows[i].members);
        if i < |init| {
          assert init[i] == rows[i];
        }
      }
      if OccursAsKey(init, k) {
        var i :| 0 <= i < |init| && init[i].Obj? && k in MemberKeys(init[i].members);
        assert rows[i] == init[i];
      }
    }
  }

  /** The columns of the flat shape list every key that occurs in any row exactly once, in
      first-seen order. */
  lemma ColumnsSpec(rows: seq<Json>)
    ensures var cols, stream := Columns(rows), KeyStream(rows);
      && Distinct(cols)
      && (forall k :: k in cols <==> OccursAsKey(rows, k))
      && (forall i, j :: 0 <= i < j < |cols| ==> FirstIndex(stream, cols[i]) < FirstIndex(stream, cols[j]))
  {
    forall k ensures k in Columns(rows) <==> OccursAsKey(rows, k) {
      KeyStreamOccurs(rows, k);
    }
    DedupFirstSeenOrder(KeyStream(rows));
  }

  /** The flat shape: a header row of the columns (ColumnsSpec), then one row per input row
      with one cell per column, holding the row's value for that key or null. */
  lemma {:induction false} FlatShape(rows: seq<Json>)
    requires forall i :: 0 <= i < |rows| ==> !rows[i].Null?
    ensures Normalise(Arr(rows)).Success?
    ensures
      var g, cols := Normalise(Arr(rows)).value, Columns(rows);
      var body := g[1..];
      && |g| == |rows| + 1
      && g[0] == NameCells(cols)
      && (forall i :: 0 <= i < |rows| ==> |body[i]| == |cols|)
      && (forall i, j :: 0 <= i < |rows| && 0 <= j < |cols| && rows[i].Obj? ==>
            body[i][j] == Value(Field(rows[i].members, cols[j])))
      && (forall i, j :: 0 <= i < |rows| && 0 <= j < |cols| && !rows[i].Obj? ==> body[i][j] == Empty)
  {
    var cols := Columns(rows);
    var g := Normalise(Arr(rows)).value;
    assert g == [NameCells(cols)] + ProjectAll(StrKeys(cols), rows);
    assert g[1..] == ProjectAll(StrKeys(cols), rows);
  }

  // ---------------------------------------------------------------------------------------
  // The handler's code, building the worksheet in place

  /** Reading one more row's keys. */
  lemma KeyStreamStep(rows: seq<Json>, i: int)
    requires 0 <= i < |rows|
    ensures KeyStream(rows[..i + 1]) == KeyStream(rows[..i]) + KeysOf(rows[i])
  {
    assert rows[..i + 1][..i] == rows[..i];
  }

  /** `Object.keys(row).forEach(k => columns.add(k))` (line 149). */
  method AddKeys(columns: seq<string>, ghost before: seq<string>, keys: seq<string>)
    returns (added: seq<string>)
    requires columns == Dedup(before)
    ensures added == Dedup(before + keys)
  {
    added := columns;
    ghost var seen := before;
    for j := 0 to |keys|
      invariant seen == before + keys[..j]
      invariant added == Dedup(seen)
    {
      DedupSnoc(seen, keys[j]);
      added := AddNew(added, keys[j]);
      seen := seen + [keys[j]];
      assert keys[..j + 1] == keys[..j] + [keys[j]];
    }
    assert keys[..|keys|] == keys;
  }

  /** The `Set` of column names (lines 148-150): every key of every row, in insertion order. */
  method CollectColumns(rows: seq<Json>) returns (r: Result<seq<string>, Error>)
    ensures HasNullRow(rows) ==> r == Failure(TypeError)
    ensures !HasNullRow(rows) ==> r == Success(Columns(rows))
    ensures r.Success? ==> Distinct(r.value) && forall k :: k in r.value <==> OccursAsKey(rows, k)
  {
    var columns: seq<string> := [];
    for i := 0 to |rows|
      invariant columns == Dedup(KeyStream(rows[..i]))
      invariant NoNullRow(rows, i)
    {
      if rows[i].Null? {
        return Failure(TypeError);
      }
      KeyStreamStep(rows, i);
      columns := AddKeys(columns, KeyStream(rows[..i]), KeysOf(rows[i]));
    }
    assert rows[..|rows|] == rows;
    forall k ensures k in columns <==> OccursAsKey(rows, k) {
      KeyStreamOccurs(rows, k);
    }
    return Success(columns);
  }

  /** One more row projected. */
  lemma ProjectAllStep(keys: seq<Json>, rows: seq<Json>, i: int)
    requires 0 <= i < |rows|
    ensures ProjectAll(keys, rows[..i + 1]) == ProjectAll(keys, rows[..i]) + [Project(keys, rows[i])]
  {
    assert rows[..i + 1][..i] == rows[..i];
  }

  /** The structured branch (lines 134-145). On a throw the worksheet holds what was added
      before it, which the handler discards. */
  method FillStructured(ws: Worksheet, headers: Json, data: Json) returns (failure: Option<Error>)
    modifies ws
    ensures failure.None? <==> Structured(headers, data).Success?
    ensures failure.Some? ==> failure.value == Structured(headers, data).error
    ensures failure.None? ==> ws.rows == old(ws.rows) + Structured(headers, data).value
    ensures old(ws.rows) <= ws.rows
  {
    if !headers.Arr? {
      return Some(TypeError);
    }
    var hs := headers.items;
    for i := 0 to |hs|
      invariant ws.rows == old(ws.rows) + HeaderRows(hs[..i])
    {
      ws.AddRow(RowCells(hs[i]));
      assert HeaderRows(hs[..i + 1]) == HeaderRows(hs[..i]) + [RowCells(hs[i])];
    }
    assert hs[..|hs|] == hs;
    if !data.Arr? {
      return Some(TypeError);
    }
    var keys := HeaderKeys(hs);
    var ds := data.items;
    for i := 0 to |ds|
      invariant ws.rows == old(ws.rows) + HeaderRows(hs) + ProjectAll(KeyList(keys), ds[..i])
      invariant forall k :: 0 <= k < i ==> !ProjectionThrows(keys, ds[k])
    {
      if ProjectionThrows(keys, ds[i]) {
        return Some(TypeError);
      }
      ws.AddRow(Project(keys.items, ds[i]));
      ProjectAllStep(keys.items, ds, i);
    }
    assert ds[..|ds|] == ds;
    return None;
  }

  /** The flat branch (lines 146-155). */
  method FillFlat(ws: Worksheet, rows: seq<Json>) returns (failure: Option<Error>)
    modifies ws
    ensures failure.None? <==> Flat(rows).Success?
    ensures failure.Some? ==> failure.value == Flat(rows).error
    ensures failure.None? ==> ws.rows == old(ws.rows) + Flat(rows).value
    ensures old(ws.rows) <= ws.rows
  {
    var columns := CollectColumns(rows);
    if columns.Failure? {
      return Some(columns.error);
    }
    var cols := columns.value;
    ws.AddRow(NameCells(cols));
    AddProjected(ws, StrKeys(cols), rows);
    FlatRows(rows, cols);
    return None;
  }

  /** Lines 152-155: one projected row per input row, in order. */
  method AddProjected(ws: Worksheet, keys: seq<Json>, rows: seq<Json>)
    modifies ws
    ensures ws.rows == old(ws.rows) + ProjectAll(keys, rows)
  {
    ghost var start := ws.rows;
    for i := 0 to |rows|
      invariant ws.rows == start + ProjectAll(keys, rows[..i])
    {
      ws.AddRow(Project(keys, rows[i]));
      ProjectAllStep(keys, rows, i);
    }
    assert rows[..|rows|] == rows;
  }

  /** The flat rows once the columns are known. */
  lemma FlatRows(rows: seq<Json>, cols: seq<string>)
    requires !HasNullRow(rows) && cols == Columns(rows)
    ensures Flat(rows) == Success([NameCells(cols)] + ProjectAll(StrKeys(cols), rows))
  {
  }

  /** Lines 132-158: fill the worksheet from the parsed JSON, or say why the handler throws. */
  method Fill(ws: Worksheet, json: Json) returns (failure: Option<Error>)
    modifies ws
    ensures failure.None? <==> Normalise(json).Success?
    ensures failure.Some? ==> failure.value == Normalise(json).error
    ensures failure.None? ==> ws.rows == old(ws.rows) + Normalise(json).value
    ensures old(ws.rows) <= ws.rows
  {
    match json {
      case Null =>
        failure := Some(TypeError);
      case Obj(ms) =>
        if IsStructured(json) {
          failure := FillStructured(ws, Field(ms, "headers"), Field(ms, "data"));
        } else {
          failure := Some(InvalidFormat);
        }
      case Arr(items) =>
        failure := FillFlat(ws, items);
      case _ =>
        failure := Some(InvalidFormat);
    }
  }
}
