/** Reading typed rows out of a block (`shared/row_macros.rs`): the bulk path
    takes each column out once, the plain path looks every field of every row up
    in the block. When both return the same rows. */
module Rows {
  import opened Bytes

  /** The type of a decoded column: that of its values, or an Enum, whose values
      are kept as integers whatever their width on the wire. */
  datatype Kind = Plain(of: nat) | Enum8 | Enum16

  /** The field types `i8` and `i16`, among all field types. */
  const I8: nat := 8
  const I16: nat := 16

  /** A column of plain or Enum values. `cells` are its decoded values. `readAs` is
      what reading its buffer as some field type gives at a row, without asking
      for the column's own type. `readable` and `aligned` say whether the column
      decodes and whether its buffer can be used as a slice. */
  datatype Column = Column(
    name: string, kind: Kind, cells: seq<int>, readable: bool, aligned: bool, readAs: (nat, nat) -> Result<int>)

  datatype Block = Block(columns: seq<Column>, rows: nat)

  /** A row type: the type of each field, their names, and whether fields are
      found by name (structs) or by position (tuples). */
  datatype RowType = RowType(kinds: seq<nat>, names: seq<string>, byName: bool)

  predicate Declared(t: RowType)
  {
    t.byName ==> |t.names| == |t.kinds|
  }

  predicate Fits(field: nat, v: int)
  {
    if field == I8 then -0x80 <= v < 0x80 else -0x8000 <= v < 0x8000
  }

  /** Byte `i` of a little-endian buffer of 16-bit cells, as an `i8`. */
  function ByteAt(cells: seq<int>, i: nat): (v: int)
    requires i < |cells|
  {
    var cell := cells[i / 2];
    if i % 2 == 1 then cell / 0x100 else if cell % 0x100 < 0x80 then cell % 0x100 else cell % 0x100 - 0x100
  }

  /** Reading a column as its own type gives its cells. The buffer of an Enum is
      read as any other: at one byte per row of an Enum16 it gives its first bytes,
      at two bytes per row of an Enum8 it is too short. */
  ghost predicate FaithfulColumn(c: Column, rows: nat)
  {
    match c.kind
    case Plain(of) => forall i: nat :: i < |c.cells| ==> c.readAs(of, i) == Ok(c.cells[i])
    case Enum8 =>
      && |c.cells| == rows
      && forall i: nat :: i < rows ==> Fits(I8, c.cells[i]) && c.readAs(I8, i) == Ok(c.cells[i]) && c.readAs(I16, i).Err?
    case Enum16 =>
      && |c.cells| == rows
      && forall i: nat :: i < rows ==>
           Fits(I16, c.cells[i]) && c.readAs(I16, i) == Ok(c.cells[i]) && c.readAs(I8, i) == Ok(ByteAt(c.cells, i))
  }

  ghost predicate Faithful(b: Block)
  {
    forall k :: 0 <= k < |b.columns| && b.columns[k].readable ==> FaithfulColumn(b.columns[k], b.rows)
  }

  // --------------------------------------------------------------------------
  // Row by row
  // --------------------------------------------------------------------------

  /** The first column of that name. */
  function Position(columns: seq<Column>, name: string): (k: Option<nat>)
    ensures k.Some? ==> k.value < |columns| && columns[k.value].name == name
    ensures k.Some? ==> forall j :: 0 <= j < k.value ==> columns[j].name != name
    ensures k.None? ==> forall j :: 0 <= j < |columns| ==> columns[j].name != name
  {
    if columns == [] then None
    else if columns[0].name == name then Some(0)
    else
      match Position(columns[1..], name)
      case None =>
        assert forall j :: 0 < j < |columns| ==> columns[j] == columns[1..][j - 1];
        None
      case Some(k) =>
        assert forall j :: 0 < j < |columns| ==> columns[j] == columns[1..][j - 1];
        Some(k + 1)
  }

  /** The column `from_row` reads field `f` from. */
  function Source(t: RowType, b: Block, f: nat): (k: Option<nat>)
    requires Declared(t) && f < |t.kinds|
    ensures k.Some? ==> k.value < |b.columns|
  {
    if t.byName then Position(b.columns, t.names[f])
    else if f < |b.columns| then Some(f) else None
  }

  /** The first `n` fields of row `i`. */
  function FieldsOf(t: RowType, b: Block, i: nat, n: nat): (r: Result<seq<int>>)
    requires Declared(t) && n <= |t.kinds|
  {
    if n == 0 then Ok([])
    else
      var front :- FieldsOf(t, b, i, n - 1);
      match Source(t, b, n - 1)
      case None => Err(IndexOutOfBounds)
      case Some(k) =>
        var v :- b.columns[k].readAs(t.kinds[n - 1], i);
        Ok(front + [v])
  }

  /** `rows_from_row` for the first `n` rows. */
  function RowsOf(t: RowType, b: Block, n: nat): (r: Result<seq<seq<int>>>)
    requires Declared(t)
  {
    if n == 0 then Ok([])
    else
      var front :- RowsOf(t, b, n - 1);
      var row :- FieldsOf(t, b, n - 1, |t.kinds|);
      Ok(front + [row])
  }

  method RowsFromRow(t: RowType, b: Block, n: nat) returns (r: Result<seq<seq<int>>>)
    requires Declared(t)
    ensures r == RowsOf(t, b, n)
  {
    var rows: seq<seq<int>> := [];
    for i := 0 to n
      invariant RowsOf(t, b, i) == Ok(rows)
    {
      var row := FieldsOf(t, b, i, |t.kinds|);
      if row.Err? {
        RowsFail(t, b, i + 1, n);
        return Err(row.error);
      }
      rows := rows + [row.value];
    }
    return Ok(rows);
  }

  lemma {:induction false} RowsFail(t: RowType, b: Block, i: nat, n: nat)
    requires Declared(t) && i <= n && RowsOf(t, b, i).Err?
    ensures RowsOf(t, b, n) == RowsOf(t, b, i)
    decreases n
  {
    if i < n {
      RowsFail(t, b, i, n - 1);
    }
  }

  // --------------------------------------------------------------------------
  // The bulk path
  // --------------------------------------------------------------------------

  /** Field `f` would come from the column in the same place. */
  predicate InPlace(t: RowType, b: Block, f: nat)
  {
    f < |t.names| && f < |b.columns| && b.columns[f].name == t.names[f]
  }

  /** `fast_path_indices`: one column per field, or nothing when a name is
      missing. */
  method FastPathIndices(t: RowType, b: Block) returns (r: Option<seq<nat>>)
    requires Declared(t)
    ensures r == IndicesOf(t, b)
  {
    var n := |t.kinds|;
    var slots := new nat[n](_ => 0);
    if !t.byName {
      for f := 0 to n
        invariant forall j :: 0 <= j < f ==> slots[j] == j
      {
        slots[f] := f;
      }
      assert slots[..] == seq(n, f => f);
      return Some(slots[..]);
    }
    var ordered := true;
    var f := 0;
    while f < n && ordered
      invariant f <= n && (ordered ==> forall j :: 0 <= j < f ==> InPlace(t, b, j) && slots[j] == j)
      invariant !ordered ==> exists j :: 0 <= j < n && !InPlace(t, b, j)
      decreases n - f, ordered
    {
      if f >= |b.columns| || b.columns[f].name != t.names[f] {
        assert !InPlace(t, b, f);
        ordered := false;
      } else {
        slots[f] := f;
        f := f + 1;
      }
    }
    if ordered {
      assert slots[..] == seq(n, f => f);
      return Some(slots[..]);
    }
    for g := 0 to n
      invariant forall j :: 0 <= j < g ==> Position(b.columns, t.names[j]) == Some(slots[j])
    {
      var k := Position(b.columns, t.names[g]);
      if k.None? { return None; }
      slots[g] := k.value;
    }
    assert slots[..] == seq(n, f requires 0 <= f < n => Position(b.columns, t.names[f]).value);
    return Some(slots[..]);
  }

  function IndicesOf(t: RowType, b: Block): (r: Option<seq<nat>>)
    requires Declared(t)
    ensures r.Some? ==> |r.value| == |t.kinds|
  {
    var n := |t.kinds|;
    if !t.byName || forall f :: 0 <= f < n ==> InPlace(t, b, f) then Some(seq(n, f => f))
    else if forall f :: 0 <= f < n ==> Position(b.columns, t.names[f]).Some? then
      Some(seq(n, f requires 0 <= f < n => Position(b.columns, t.names[f]).value))
    else None
  }

  /** The types `to_typed` gives the values of a column as. */
  predicate Accepts(kind: Kind, field: nat)
  {
    if kind.Plain? then kind.of == field else field == I8 || field == I16
  }

  /** `to_typed`: an Enum value comes as either width that holds it. */
  function Typed(c: Column, field: nat, i: nat): (r: Result<int>)
  {
    if !Accepts(c.kind, field) || i >= |c.cells| then Err(Unsupported)
    else if !c.kind.Plain? && !Fits(field, c.cells[i]) then Err(Unsupported)
    else Ok(c.cells[i])
  }

  /** `from_columns` for the first `n` fields. */
  function FromColumns(kinds: seq<nat>, cols: seq<Column>, i: nat, n: nat): (r: Result<seq<int>>)
    requires n <= |kinds| == |cols|
  {
    if n == 0 then Ok([])
    else
      var front :- FromColumns(kinds, cols, i, n - 1);
      var v :- Typed(cols[n - 1], kinds[n - 1], i);
      Ok(front + [v])
  }

  /** `from_columns` for the first `n` rows. */
  function FromColumnsRows(kinds: seq<nat>, cols: seq<Column>, n: nat): (r: Result<seq<seq<int>>>)
    requires |kinds| == |cols|
  {
    if n == 0 then Ok([])
    else
      var front :- FromColumnsRows(kinds, cols, n - 1);
      var row :- FromColumns(kinds, cols, n - 1, |kinds|);
      Ok(front + [row])
  }

  /** Every field has a native slice that covers all rows. */
  predicate Sliced(kinds: seq<nat>, cols: seq<Column>, n: nat)
    requires |kinds| == |cols|
  {
    forall f :: 0 <= f < |cols| ==> cols[f].aligned && cols[f].kind == Plain(kinds[f]) && n <= |cols[f].cells|
  }

  /** Row `i` of the slices. */
  function SliceRow(cols: seq<Column>, i: nat): (row: seq<int>)
    requires forall f :: 0 <= f < |cols| ==> i < |cols[f].cells|
  {
    seq(|cols|, f requires 0 <= f < |cols| => cols[f].cells[i])
  }

  /** `from_columns_collect`: reads slices where it can, row by row where not.
      Either way the rows are those of `from_columns`. */
  method CollectColumns(kinds: seq<nat>, cols: seq<Column>, n: nat) returns (r: Result<seq<seq<int>>>)
    requires |kinds| == |cols|
    ensures r == FromColumnsRows(kinds, cols, n)
  {
    var rows: seq<seq<int>> := [];
    if Sliced(kinds, cols, n) {
      for i := 0 to n
        invariant FromColumnsRows(kinds, cols, i) == Ok(rows)
      {
        SlicesAreTyped(kinds, cols, i, |kinds|);
        assert SliceRow(cols, i)[..|kinds|] == SliceRow(cols, i);
        rows := rows + [SliceRow(cols, i)];
      }
    } else {
      for i := 0 to n
        invariant FromColumnsRows(kinds, cols, i) == Ok(rows)
      {
        var row := FromColumns(kinds, cols, i, |kinds|);
        if row.Err? {
          TypedFail(kinds, cols, i + 1, n);
          return Err(row.error);
        }
        rows := rows + [row.value];
      }
    }
    return Ok(rows);
  }

  lemma {:induction false} SlicesAreTyped(kinds: seq<nat>, cols: seq<Column>, i: nat, n: nat)
    requires n <= |kinds| == |cols|
    requires forall f :: 0 <= f < |cols| ==> cols[f].kind == Plain(kinds[f]) && i < |cols[f].cells|
    ensures FromColumns(kinds, cols, i, n) == Ok(SliceRow(cols, i)[..n])
    decreases n
  {
    if n > 0 {
      SlicesAreTyped(kinds, cols, i, n - 1);
      assert SliceRow(cols, i)[..n] == SliceRow(cols, i)[..n - 1] + [cols[n - 1].cells[i]];
    }
  }

  lemma {:induction false} TypedFail(kinds: seq<nat>, cols: seq<Column>, i: nat, n: nat)
    requires |kinds| == |cols| && i <= n && FromColumnsRows(kinds, cols, i).Err?
    ensures FromColumnsRows(kinds, cols, n) == FromColumnsRows(kinds, cols, i)
    decreases n
  {
    if i < n {
      TypedFail(kinds, cols, i, n - 1);
    }
  }

  const FAST_COLUMNS: nat := 8

  /** The columns the bulk path takes out of the block. */
  function Taken(t: RowType, b: Block): (cols: Option<seq<Column>>)
    requires Declared(t)
    ensures cols.Some? ==> |cols.value| == |t.kinds|
  {
    match IndicesOf(t, b)
    case None => None
    case Some(indices) =>
      if forall f :: 0 <= f < |indices| ==> indices[f] < |b.columns| && b.columns[indices[f]].readable then
        Some(seq(|indices|, f requires 0 <= f < |indices| => b.columns[indices[f]]))
      else None
  }

  /** What `read_all` returns. */
  function AllOf(t: RowType, b: Block): (r: Result<seq<seq<int>>>)
    requires Declared(t)
  {
    if !(0 < |t.kinds| <= FAST_COLUMNS) || Taken(t, b).None? then RowsOf(t, b, b.rows)
    else
      var fast := FromColumnsRows(t.kinds, Taken(t, b).value, b.rows);
      if fast.Ok? then fast else RowsOf(t, b, b.rows)
  }

  /** `read_all`. */
  method ReadAll(t: RowType, b: Block) returns (r: Result<seq<seq<int>>>)
    requires Declared(t)
    ensures r == AllOf(t, b)
  {
    if !(0 < |t.kinds| <= FAST_COLUMNS) {
      r := RowsFromRow(t, b, b.rows);
      return;
    }
    var indices := FastPathIndices(t, b);
    if indices.None? {
      r := RowsFromRow(t, b, b.rows);
      return;
    }
    var cols: seq<Column> := [];
    for f := 0 to |t.kinds|
      invariant |cols| == f
      invariant forall j :: 0 <= j < f ==>
                  && indices.value[j] < |b.columns| && b.columns[indices.value[j]].readable
                  && cols[j] == b.columns[indices.value[j]]
    {
      var k := indices.value[f];
      if k >= |b.columns| || !b.columns[k].readable {
        r := RowsFromRow(t, b, b.rows);
        return;
      }
      cols := cols + [b.columns[k]];
    }
    assert cols == Taken(t, b).value;
    var fast := CollectColumns(t.kinds, cols, b.rows);
    if fast.Ok? { return fast; }
    r := RowsFromRow(t, b, b.rows);
  }

  // --------------------------------------------------------------------------
  // When both paths agree
  // --------------------------------------------------------------------------

  predicate Distinct(names: seq<string>)
  {
    forall i, j :: 0 <= i < j < |names| ==> names[i] != names[j]
  }

  /** An 8-bit field over an Enum16 column, or a 16-bit field over an Enum8 column. */
  predicate Crossed(kind: Kind, field: nat)
  {
    (kind.Enum16? && field == I8) || (kind.Enum8? && field == I16)
  }

  /** Field `f` comes from the column `from_row` would read, at that column's width. */
  predicate SameField(t: RowType, b: Block, f: nat)
    requires Declared(t) && IndicesOf(t, b).Some? && f < |t.kinds|
  {
    var k := IndicesOf(t, b).value[f];
    Source(t, b, f) == Some(k) && !Crossed(b.columns[k].kind, t.kinds[f])
  }

  /** The bulk path can succeed: every field has a column that gives its type. */
  predicate Usable(t: RowType, b: Block)
    requires Declared(t)
  {
    && 0 < |t.kinds| <= FAST_COLUMNS && IndicesOf(t, b).Some?
    && forall f :: 0 <= f < |t.kinds| ==> var k := IndicesOf(t, b).value[f];
         k < |b.columns| && Accepts(b.columns[k].kind, t.kinds[f])
  }

  /** What decides, from the names and types of the columns alone. */
  predicate BulkIsRight(t: RowType, b: Block)
    requires Declared(t)
  {
    Usable(t, b) ==> forall f :: 0 <= f < |t.kinds| ==> SameField(t, b, f)
  }

  lemma {:induction false} SameFields(t: RowType, b: Block, i: nat, n: nat)
    requires Declared(t) && Faithful(b) && Taken(t, b).Some? && n <= |t.kinds| && i < b.rows
    requires forall f :: 0 <= f < |t.kinds| ==> SameField(t, b, f)
    requires FromColumns(t.kinds, Taken(t, b).value, i, n).Ok?
    ensures FieldsOf(t, b, i, n) == FromColumns(t.kinds, Taken(t, b).value, i, n)
    decreases n
  {
    hide IndicesOf, Source;
    if n > 0 {
      SameFields(t, b, i, n - 1);
      assert SameField(t, b, n - 1);
    }
  }

  lemma {:induction false} SameRows(t: RowType, b: Block, n: nat)
    requires Declared(t) && Faithful(b) && Taken(t, b).Some? && n <= b.rows
    requires forall f :: 0 <= f < |t.kinds| ==> SameField(t, b, f)
    requires FromColumnsRows(t.kinds, Taken(t, b).value, n).Ok?
    ensures RowsOf(t, b, n) == FromColumnsRows(t.kinds, Taken(t, b).value, n)
    decreases n
  {
    hide Taken, FieldsOf, FromColumns, SameField;
    if n > 0 {
      SameRows(t, b, n - 1);
      SameFields(t, b, n - 1, |t.kinds|);
    }
  }

  lemma {:induction false} FieldAccepted(kinds: seq<nat>, cols: seq<Column>, i: nat, n: nat, f: nat)
    requires f < n <= |kinds| == |cols| && FromColumns(kinds, cols, i, n).Ok?
    ensures Accepts(cols[f].kind, kinds[f])
    decreases n
  {
    if f < n - 1 {
      FieldAccepted(kinds, cols, i, n - 1, f);
    }
  }

  lemma {:induction false} FirstRow(kinds: seq<nat>, cols: seq<Column>, n: nat)
    requires 0 < n && |kinds| == |cols| && FromColumnsRows(kinds, cols, n).Ok?
    ensures FromColumns(kinds, cols, 0, |kinds|).Ok?
    decreases n
  {
    if n > 1 {
      FirstRow(kinds, cols, n - 1);
    }
  }

  /** Only a usable block gets rows out of the bulk path. */
  lemma FastMeansUsable(t: RowType, b: Block)
    requires Declared(t) && 0 < |t.kinds| <= FAST_COLUMNS && Taken(t, b).Some? && b.rows > 0
    requires FromColumnsRows(t.kinds, Taken(t, b).value, b.rows).Ok?
    ensures Usable(t, b)
  {
    hide IndicesOf, FromColumnsRows, FromColumns;
    var cols := Taken(t, b).value;
    FirstRow(t.kinds, cols, b.rows);
    forall f | 0 <= f < |t.kinds|
      ensures Accepts(cols[f].kind, t.kinds[f])
    {
      FieldAccepted(t.kinds, cols, 0, |t.kinds|, f);
    }
  }

  /** For every block, column order and alignment, `read_all` returns what
      `from_row` gives row by row, if the names and types are right. */
  lemma FastPathRefines(t: RowType, b: Block)
    requires Declared(t) && Faithful(b) && BulkIsRight(t, b)
    ensures AllOf(t, b) == RowsOf(t, b, b.rows)
  {
    hide Taken, RowsOf, FromColumnsRows, Usable, SameField;
    if 0 < |t.kinds| <= FAST_COLUMNS && Taken(t, b).Some? && FromColumnsRows(t.kinds, Taken(t, b).value, b.rows).Ok? {
      if b.rows == 0 {
        NoRows(t, b);
      } else {
        FastMeansUsable(t, b);
        SameRows(t, b, b.rows);
      }
    }
  }

  lemma NoRows(t: RowType, b: Block)
    requires Declared(t) && Taken(t, b).Some?
    ensures RowsOf(t, b, 0) == FromColumnsRows(t.kinds, Taken(t, b).value, 0) == Ok([])
  {
  }

  // --------------------------------------------------------------------------
  // Otherwise some block with these columns shows a difference
  // --------------------------------------------------------------------------

  /** The same column names and types. */
  ghost predicate SameColumns(a: Block, b: Block)
  {
    && |a.columns| == |b.columns|
    && forall k :: 0 <= k < |a.columns| ==> a.columns[k].name == b.columns[k].name && a.columns[k].kind == b.columns[k].kind
  }

  lemma {:induction false} SamePosition(a: seq<Column>, b: seq<Column>, name: string)
    requires |a| == |b| && forall k :: 0 <= k < |a| ==> a[k].name == b[k].name
    ensures Position(a, name) == Position(b, name)
    decreases |a|
  {
    if a != [] {
      SamePosition(a[1..], b[1..], name);
    }
  }

  lemma SameIndices(t: RowType, a: Block, b: Block)
    requires Declared(t) && SameColumns(a, b)
    ensures IndicesOf(t, a) == IndicesOf(t, b)
    ensures forall f :: 0 <= f < |t.kinds| ==> Source(t, a, f) == Source(t, b, f)
  {
    hide Position;
    forall name
      ensures Position(a.columns, name) == Position(b.columns, name)
    {
      SamePosition(a.columns, b.columns, name);
    }
    var n := |t.kinds|;
    assert forall f: nat :: InPlace(t, a, f) == InPlace(t, b, f);
    if t.byName && forall f :: 0 <= f < n ==> Position(a.columns, t.names[f]).Some? {
      assert seq(n, f requires 0 <= f < n => Position(a.columns, t.names[f]).value)
          == seq(n, f requires 0 <= f < n => Position(b.columns, t.names[f]).value);
    }
  }

  lemma SameVerdict(t: RowType, a: Block, b: Block)
    requires Declared(t) && SameColumns(a, b)
    ensures BulkIsRight(t, a) == BulkIsRight(t, b)
  {
    hide IndicesOf, Source, Accepts, Crossed;
    SameIndices(t, a, b);
    assert Usable(t, a) == Usable(t, b);
    if Usable(t, a) {
      assert forall f :: 0 <= f < |t.kinds| ==> SameField(t, a, f) == SameField(t, b, f);
    }
  }

  /** Two rows of `v`, read as what the column is. */
  function Constant(name: string, kind: Kind, v: int): (c: Column)
  {
    Column(name, kind, [v, v], true, true, (field: nat, i: nat) => ConstantAt(kind, v, field, i))
  }

  function ConstantAt(kind: Kind, v: int, field: nat, i: nat): (r: Result<int>)
  {
    if i >= 2 || !Accepts(kind, field) || (kind.Enum8? && field == I16) then Err(Unsupported)
    else if kind.Enum16? && field == I8 then Ok(ByteAt([v, v], i))
    else Ok(v)
  }

  /** Ones in column `hot`, zeros elsewhere. */
  function Witness(b: Block, hot: nat): (w: Block)
  {
    Block(seq(|b.columns|, k requires 0 <= k < |b.columns| =>
            Constant(b.columns[k].name, b.columns[k].kind, if k == hot then 1 else 0)), 2)
  }

  lemma WitnessFaithful(b: Block, hot: nat)
    ensures Faithful(Witness(b, hot)) && SameColumns(Witness(b, hot), b)
  {
    hide FaithfulColumn;
    var w := Witness(b, hot);
    forall k | 0 <= k < |w.columns|
      ensures FaithfulColumn(w.columns[k], 2)
    {
      ConstantFaithful(b.columns[k].name, b.columns[k].kind, if k == hot then 1 else 0);
    }
  }

  lemma ConstantFaithful(name: string, kind: Kind, v: int)
    requires v == 0 || v == 1
    ensures FaithfulColumn(Constant(name, kind, v), 2)
  {
    var c := Constant(name, kind, v);
    forall field: nat, i: nat
      ensures c.readAs(field, i) == ConstantAt(kind, v, field, i)
    {
    }
    assert c.cells == [v, v];
  }

  /** Every cell of the witness comes out of the bulk path. */
  lemma {:induction false} WitnessRow(kinds: seq<nat>, cols: seq<Column>, i: nat, n: nat)
    requires n <= |kinds| == |cols| && i < 2
    requires forall f :: 0 <= f < |cols| ==> Accepts(cols[f].kind, kinds[f]) && (cols[f].cells == [0, 0] || cols[f].cells == [1, 1])
    ensures FromColumns(kinds, cols, i, n) == Ok(SliceRow(cols, i)[..n])
    decreases n
  {
    if n > 0 {
      WitnessRow(kinds, cols, i, n - 1);
      assert SliceRow(cols, i)[..n] == SliceRow(cols, i)[..n - 1] + [cols[n - 1].cells[i]];
    }
  }

  lemma {:induction false} FieldAt(t: RowType, b: Block, i: nat, n: nat, f: nat)
    requires Declared(t) && f < n <= |t.kinds| && FieldsOf(t, b, i, n).Ok?
    ensures |FieldsOf(t, b, i, n).value| == n && Source(t, b, f).Some?
    ensures b.columns[Source(t, b, f).value].readAs(t.kinds[f], i) == Ok(FieldsOf(t, b, i, n).value[f])
    decreases n
  {
    hide Source;
    if f < n - 1 {
      FieldAt(t, b, i, n - 1, f);
    } else if n > 1 {
      FieldAt(t, b, i, n - 1, 0);
    }
  }

  /** Two rows, on both paths. */
  lemma TwoRows(t: RowType, b: Block, cols: seq<Column>, first: seq<int>, second: seq<int>)
    requires Declared(t) && |cols| == |t.kinds|
    requires FromColumns(t.kinds, cols, 0, |t.kinds|) == Ok(first) && FromColumns(t.kinds, cols, 1, |t.kinds|) == Ok(second)
    ensures FromColumnsRows(t.kinds, cols, 2) == Ok([first, second])
    ensures RowsOf(t, b, 2).Ok? ==>
              && FieldsOf(t, b, 0, |t.kinds|).Ok? && FieldsOf(t, b, 1, |t.kinds|).Ok?
              && RowsOf(t, b, 2).value == [FieldsOf(t, b, 0, |t.kinds|).value, FieldsOf(t, b, 1, |t.kinds|).value]
  {
    hide FieldsOf, FromColumns;
    assert FromColumnsRows(t.kinds, cols, 0) == Ok([]) && RowsOf(t, b, 0) == Ok([]);
    assert [] + [first] == [first] && [first] + [second] == [first, second];
    assert FromColumnsRows(t.kinds, cols, 1) == Ok([first]);
    if RowsOf(t, b, 2).Ok? {
      assert RowsOf(t, b, 1).Ok? && FieldsOf(t, b, 0, |t.kinds|).Ok?;
      assert [] + [FieldsOf(t, b, 0, |t.kinds|).value] == [FieldsOf(t, b, 0, |t.kinds|).value];
    }
  }

  /** The bulk path reads ones in field `f` of both rows. */
  lemma WitnessRead(t: RowType, b: Block, f: nat)
    requires Declared(t) && Usable(t, b) && f < |t.kinds|
    ensures var w := Witness(b, IndicesOf(t, b).value[f]);
            && Taken(t, w).Some? && IndicesOf(t, w) == IndicesOf(t, b) && Source(t, w, f) == Source(t, b, f)
            && var cols := Taken(t, w).value;
               && (forall g :: 0 <= g < |cols| ==> |cols[g].cells| == 2)
               && FromColumns(t.kinds, cols, 0, |t.kinds|) == Ok(SliceRow(cols, 0))
               && FromColumns(t.kinds, cols, 1, |t.kinds|) == Ok(SliceRow(cols, 1))
               && SliceRow(cols, 0)[f] == SliceRow(cols, 1)[f] == 1
  {
    hide IndicesOf, Source, FromColumns;
    var w := Witness(b, IndicesOf(t, b).value[f]);
    WitnessFaithful(b, IndicesOf(t, b).value[f]);
    SameIndices(t, w, b);
    var cols := Taken(t, w).value;
    WitnessRow(t.kinds, cols, 0, |t.kinds|);
    WitnessRow(t.kinds, cols, 1, |t.kinds|);
    assert SliceRow(cols, 0)[..|t.kinds|] == SliceRow(cols, 0) && SliceRow(cols, 1)[..|t.kinds|] == SliceRow(cols, 1);
  }

  /** `from_row` does not. */
  lemma WitnessMissed(t: RowType, b: Block, f: nat, i: nat)
    requires Declared(t) && Usable(t, b) && f < |t.kinds| && !SameField(t, b, f)
    requires i == if Source(t, b, f) == Some(IndicesOf(t, b).value[f]) then 1 else 0
    ensures var w := Witness(b, IndicesOf(t, b).value[f]);
            Source(t, b, f).Some? ==> w.columns[Source(t, b, f).value].readAs(t.kinds[f], i) != Ok(1)
  {
    hide IndicesOf, Source;
  }

  lemma BulkDiffers(t: RowType, b: Block, f: nat)
    requires Declared(t) && Usable(t, b) && f < |t.kinds| && !SameField(t, b, f)
    ensures var w := Witness(b, IndicesOf(t, b).value[f]);
            AllOf(t, w) != RowsOf(t, w, 2)
  {
    hide IndicesOf, Source, SameField, Taken, FieldsOf, FromColumns, FromColumnsRows, RowsOf;
    var w, n := Witness(b, IndicesOf(t, b).value[f]), |t.kinds|;
    WitnessRead(t, b, f);
    var cols := Taken(t, w).value;
    TwoRows(t, w, cols, SliceRow(cols, 0), SliceRow(cols, 1));
    var i := if Source(t, b, f) == Some(IndicesOf(t, b).value[f]) then 1 else 0;
    WitnessMissed(t, b, f, i);
    if RowsOf(t, w, 2).Ok? {
      FieldAt(t, w, i, n, f);
      assert RowsOf(t, w, 2).value[i][f] != 1;
    }
  }

  /** For given column names and types the bulk path is right on every block exactly
      when it takes each field from the column `from_row` would, and no 8-bit field
      lies over an Enum16 nor a 16-bit field over an Enum8. Where the bulk path
      cannot succeed it is right too. */
  lemma BulkPathExact(t: RowType, columns: Block)
    requires Declared(t)
    ensures (forall b :: Faithful(b) && SameColumns(b, columns) ==> AllOf(t, b) == RowsOf(t, b, b.rows))
       <==> BulkIsRight(t, columns)
  {
    hide AllOf, RowsOf, Faithful, SameField, IndicesOf;
    if BulkIsRight(t, columns) {
      forall b | Faithful(b) && SameColumns(b, columns)
        ensures AllOf(t, b) == RowsOf(t, b, b.rows)
      {
        SameVerdict(t, b, columns);
        FastPathRefines(t, b);
      }
    } else {
      var f :| 0 <= f < |t.kinds| && !SameField(t, columns, f);
      var hot := IndicesOf(t, columns).value[f];
      BulkDiffers(t, columns, f);
      WitnessFaithful(columns, hot);
      assert Witness(columns, hot).rows == 2;
    }
  }

  // --------------------------------------------------------------------------
  // Names
  // --------------------------------------------------------------------------

  /** No field of the row meets an Enum of the other width. */
  predicate Uncrossed(t: RowType, b: Block)
  {
    forall k, f :: 0 <= k < |b.columns| && 0 <= f < |t.kinds| ==> !Crossed(b.columns[k].kind, t.kinds[f])
  }

  /** With distinct names the bulk path takes each field from the column `from_row`
      would. */
  lemma SameSource(t: RowType, b: Block, f: nat)
    requires Declared(t) && (t.byName ==> Distinct(t.names)) && IndicesOf(t, b).Some? && f < |t.kinds|
    requires IndicesOf(t, b).value[f] < |b.columns|
    ensures Source(t, b, f) == Some(IndicesOf(t, b).value[f])
  {
    if t.byName && forall g :: 0 <= g < |t.kinds| ==> InPlace(t, b, g) {
      assert InPlace(t, b, f);
      var k := Position(b.columns, t.names[f]);
      if k.Some? && k.value < f {
        assert InPlace(t, b, k.value);
      }
    }
  }

  lemma DistinctIsRight(t: RowType, b: Block)
    requires Declared(t) && (t.byName ==> Distinct(t.names)) && Uncrossed(t, b)
    ensures BulkIsRight(t, b)
  {
    hide IndicesOf, Source, Accepts, Crossed;
    if Usable(t, b) {
      forall f | 0 <= f < |t.kinds|
        ensures SameField(t, b, f)
      {
        SameSource(t, b, f);
      }
    }
  }

  /** Columns in the order of the fields. */
  function InOrder(t: RowType): (b: Block)
    requires Declared(t) && t.byName
  {
    Block(seq(|t.kinds|, f requires 0 <= f < |t.kinds| => Constant(t.names[f], Plain(t.kinds[f]), 0)), 2)
  }

  /** With a name twice, the two paths read a field from different columns. */
  lemma DuplicatesDiffer(t: RowType, i: nat, j: nat)
    requires Declared(t) && t.byName && |t.kinds| <= FAST_COLUMNS
    requires i < j < |t.names| && t.names[i] == t.names[j]
    ensures !BulkIsRight(t, InOrder(t))
  {
    hide Position;
    var b := InOrder(t);
    assert forall f :: 0 <= f < |t.kinds| ==> InPlace(t, b, f);
    assert b.columns[i].name == t.names[j];
    assert Source(t, b, j) != Some(j);
    assert !SameField(t, b, j);
  }

  /** For a struct of up to eight fields, over blocks whose Enums have the widths of
      their fields, the bulk path is right on every block exactly when no two fields
      have the same column name. */
  lemma BulkPathIffDistinct(t: RowType)
    requires Declared(t) && t.byName && |t.kinds| <= FAST_COLUMNS
    ensures Distinct(t.names)
       <==> forall b :: Faithful(b) && Uncrossed(t, b) ==> AllOf(t, b) == RowsOf(t, b, b.rows)
  {
    hide AllOf, RowsOf, Faithful, BulkIsRight;
    if Distinct(t.names) {
      forall b | Faithful(b) && Uncrossed(t, b)
        ensures AllOf(t, b) == RowsOf(t, b, b.rows)
      {
        DistinctIsRight(t, b);
        FastPathRefines(t, b);
      }
    } else {
      var i, j :| 0 <= i < j < |t.names| && t.names[i] == t.names[j];
      DuplicatesDiffer(t, i, j);
      BulkPathExact(t, InOrder(t));
    }
  }

  // --------------------------------------------------------------------------
  // Enums
  // --------------------------------------------------------------------------

  /** Two rows of Enum16, 1 and 2, as they lie in the buffer. */
  function EnumBlock(): (b: Block)
  {
    Block([Column("e", Enum16, [1, 2], true, true,
                  (field: nat, i: nat) =>
                    if i >= 2 then Err(Unsupported)
                    else if field == I16 then Ok([1, 2][i])
                    else if field == I8 then Ok(ByteAt([1, 2], i)) else Err(Unsupported))], 2)
  }

  /** Read as `(i8,)`, `read_all` gives 1 and 2, `from_row` 1 and 0. */
  lemma EnumsDiffer()
    ensures Faithful(EnumBlock())
    ensures AllOf(RowType([I8], [], false), EnumBlock()) == Ok([[1], [2]])
    ensures RowsOf(RowType([I8], [], false), EnumBlock(), 2) == Ok([[1], [0]])
  {
    hide Taken, FromColumns, FieldsOf, FromColumnsRows, RowsOf;
    var t, b := RowType([I8], [], false), EnumBlock();
    EnumTaken(t, b);
    EnumCells(t, b);
    TwoRows(t, b, b.columns, [1], [2]);
    EnumRows(t, b);
  }

  lemma EnumTaken(t: RowType, b: Block)
    requires t == RowType([I8], [], false) && b == EnumBlock()
    ensures Taken(t, b) == Some(b.columns)
  {
    assert seq(1, f => f) == [0];
    assert IndicesOf(t, b) == Some([0]);
    assert Taken(t, b).Some? && Taken(t, b).value == b.columns;
  }

  lemma EnumRows(t: RowType, b: Block)
    requires t == RowType([I8], [], false) && FieldsOf(t, b, 0, 1) == Ok([1]) && FieldsOf(t, b, 1, 1) == Ok([0])
    ensures RowsOf(t, b, 2) == Ok([[1], [0]])
  {
    hide FieldsOf;
    assert RowsOf(t, b, 0) == Ok([]);
    assert [] + [[1]] == [[1]] && [[1]] + [[0]] == [[1], [0]];
    assert RowsOf(t, b, 1) == Ok([[1]]);
  }

  lemma EnumCells(t: RowType, b: Block)
    requires t == RowType([I8], [], false) && b == EnumBlock()
    ensures FromColumns(t.kinds, b.columns, 0, 1) == Ok([1]) && FromColumns(t.kinds, b.columns, 1, 1) == Ok([2])
    ensures FieldsOf(t, b, 0, 1) == Ok([1]) && FieldsOf(t, b, 1, 1) == Ok([0])
  {
    assert FromColumns(t.kinds, b.columns, 0, 0) == Ok([]) && FromColumns(t.kinds, b.columns, 1, 0) == Ok([]);
    assert FieldsOf(t, b, 0, 0) == Ok([]) && FieldsOf(t, b, 1, 0) == Ok([]);
    assert forall v: int :: [] + [v] == [v];
    assert Typed(b.columns[0], I8, 0) == Ok(1) && Typed(b.columns[0], I8, 1) == Ok(2);
    assert b.columns[0].readAs(I8, 0) == Ok(1) && b.columns[0].readAs(I8, 1) == Ok(0);
  }
}
