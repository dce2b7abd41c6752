/** The states left by state prefixes match their types at every depth, so the
    bodies behind them always find the state they need. */
module StateShape {
  import opened Bytes
  import opened Limits
  import opened ColumnTypes
  import opened TypeText
  import opened SkipSpec

  // --------------------------------------------------------------------------
  // Prefixes leave states of the right shape
  // --------------------------------------------------------------------------

  ghost predicate Shape(t: ColumnType, s: SkipState)
    decreases s, 1
  {
    if t.Nullable? then s.NullableState? && Shape(t.inner, s.inner)
    else if t.Array? then s.ArrayState? && Shape(t.inner, s.inner)
    else if t.LowCardinality? then s.LowCardinalityState? && Shape(t.inner, s.inner)
    else if t.Map? then s.MapState? && Shape(t.key, s.key) && Shape(t.value, s.value)
    else if t.Tuple? then s.TupleState? && Shapes(t.elems, s.elems)
    else if t.Variant? then s.VariantState? && Shapes(t.types, s.elems)
    else if t.Dynamic? then s.DynamicState? && DynShape(s.dynamic)
    else if t.JSON? then s.JsonState? && s.version in {0, 1, 3, 4} && DynShapes(s.paths)
    else s.NoState?
  }

  ghost predicate Shapes(ts: seq<ColumnType>, ss: seq<SkipState>)
    decreases ss, 0
  {
    |ts| == |ss| && (ss != [] ==> Shape(ts[0], ss[0]) && Shapes(ts[1..], ss[1..]))
  }

  /** A known version, and one state of the named type per name. */
  ghost predicate DynShape(d: DynState)
    decreases d, 0
  {
    d.version <= 3 && NamedShapes(d.names, d.states)
  }

  ghost predicate NamedShapes(names: seq<string>, ss: seq<SkipState>)
    decreases ss, 0
  {
    && |names| == |ss|
    && (ss != [] ==>
          ParseType(names[0]).Ok? && Shape(ParseType(names[0]).value, ss[0]) && NamedShapes(names[1..], ss[1..]))
  }

  ghost predicate DynShapes(ds: seq<DynState>)
    decreases ds, 0
  {
    ds != [] ==> DynShape(ds[0]) && DynShapes(ds[1..])
  }

  lemma {:induction false} PrefixShape(buf: seq<byte>, pos: nat, t: ColumnType)
    requires pos <= |buf| && SkipPrefix(buf, pos, t).Ok?
    ensures Shape(t, SkipPrefix(buf, pos, t).value.0)
    decreases |buf| - pos, TypeSize(t)
  {
    hide SkipDynamicState, SkipJsonState, SkipPrefixes, DynShape, DynShapes, Shapes;
    if t.Nullable? || t.Array? || t.LowCardinality? {
      PrefixShape(buf, pos, t.inner);
    } else if t.Map? {
      PrefixShape(buf, pos, t.key);
      PrefixShape(buf, SkipPrefix(buf, pos, t.key).value.1, t.value);
    } else if t.Tuple? {
      PrefixShapes(buf, pos, t.elems);
    } else if t.Variant? {
      PrefixShapes(buf, pos, t.types);
    } else if t.Dynamic? {
      DynamicShape(buf, pos);
    } else if t.JSON? {
      JsonShape(buf, pos);
    }
  }

  lemma {:induction false} PrefixShapes(buf: seq<byte>, pos: nat, ts: seq<ColumnType>)
    requires pos <= |buf| && SkipPrefixes(buf, pos, ts).Ok?
    ensures Shapes(ts, SkipPrefixes(buf, pos, ts).value.0)
    decreases |buf| - pos, TypesSize(ts)
  {
    hide SkipPrefix, Shape;
    if ts != [] {
      PrefixShape(buf, pos, ts[0]);
      var p := SkipPrefix(buf, pos, ts[0]).value.1;
      PrefixShapes(buf, p, ts[1..]);
      assert SkipPrefixes(buf, pos, ts).value.0[1..] == SkipPrefixes(buf, p, ts[1..]).value.0;
    }
  }

  lemma {:induction false} DynamicShape(buf: seq<byte>, pos: nat)
    requires pos <= |buf| && SkipDynamicState(buf, pos).Ok?
    ensures DynShape(SkipDynamicState(buf, pos).value.0)
    decreases |buf| - pos, 0
  {
    hide SkipNamed, NamedShapes, ReadNameList;
    var (version, p) := U64At(buf, pos).value;
    var (names, q) := ReadDynamicNames(buf, p, version).value;
    NamedShape(buf, q, names);
  }

  lemma {:induction false} NamedShape(buf: seq<byte>, pos: nat, names: seq<string>)
    requires pos <= |buf| && SkipNamed(buf, pos, names).Ok?
    ensures NamedShapes(names, SkipNamed(buf, pos, names).value.0)
    decreases |buf| - pos + 1, |names|
  {
    hide SkipPrefix, Shape, ParseType;
    if names != [] {
      var t := ParseType(names[0]).value;
      PrefixShape(buf, pos, t);
      var p := SkipPrefix(buf, pos, t).value.1;
      NamedShape(buf, p, names[1..]);
      assert SkipNamed(buf, pos, names).value.0[1..] == SkipNamed(buf, p, names[1..]).value.0;
    }
  }

  lemma {:induction false} JsonShape(buf: seq<byte>, pos: nat)
    requires pos <= |buf| && SkipJsonState(buf, pos).Ok?
    ensures Shape(JSON, SkipJsonState(buf, pos).value.0)
    decreases |buf| - pos, 0
  {
    hide SkipJsonPaths, DynShapes, Varint.VarintAt;
    var (version, p) := U64At(buf, pos).value;
    if version == 3 {
      JsonPathsShape(buf, p);
    } else if version == 0 {
      JsonPathsShape(buf, Varint.VarintAt(buf, p).value.1);
    } else {
      NoDynShapes();
    }
  }

  lemma NoDynShapes()
    ensures DynShapes([])
  {
  }

  lemma {:induction false} JsonPathsShape(buf: seq<byte>, pos: nat)
    requires pos <= |buf| && SkipJsonPaths(buf, pos).Ok?
    ensures DynShapes(SkipJsonPaths(buf, pos).value.0)
    decreases |buf| - pos + 2, 0
  {
    hide SkipDynamicStates, DynShapes, Varint.VarintAt, SkipStrings;
    var (n, p) := Varint.VarintAt(buf, pos).value;
    DynamicsShape(buf, SkipStrings(buf, p, n).value, n);
  }

  lemma {:induction false} DynamicsShape(buf: seq<byte>, pos: nat, count: nat)
    requires pos <= |buf| && SkipDynamicStates(buf, pos, count).Ok?
    ensures DynShapes(SkipDynamicStates(buf, pos, count).value.0)
    decreases |buf| - pos + 1, count
  {
    hide SkipDynamicState, DynShape;
    if count > 0 {
      DynamicShape(buf, pos);
      var p := SkipDynamicState(buf, pos).value.1;
      DynamicsShape(buf, p, count - 1);
      assert SkipDynamicStates(buf, pos, count).value.0[1..] == SkipDynamicStates(buf, p, count - 1).value.0;
    }
  }

  // --------------------------------------------------------------------------
  // Bodies find their states
  // --------------------------------------------------------------------------

  /** The state `s`, read with the fallbacks of the body functions, holds all
      that a body of type `t` asks for. */
  ghost predicate Serves(t: ColumnType, s: SkipState)
    decreases StateSize(s), TypeSize(t)
  {
    if t.Nullable? then Serves(t.inner, NullableInner(s))
    else if t.Array? then Serves(t.inner, ArrayInner(s))
    else if t.LowCardinality? then Serves(t.inner, LowCardinalityInner(s))
    else if t.Map? then Serves(t.key, MapKey(s)) && Serves(t.value, MapValue(s))
    else if t.Tuple? then ServesAll(t.elems, TupleElems(s))
    else if t.Variant? then ServesAll(t.types, VariantElems(s))
    else if t.Dynamic? then s.DynamicState? && DynServes(s.dynamic)
    else if t.JSON? then s.JsonState? && DynsServe(s.paths)
    else true
  }

  ghost predicate ServesAll(ts: seq<ColumnType>, ss: seq<SkipState>)
    decreases StatesSize(ss), TypesSize(ts)
  {
    if ts == [] then true
    else
      var rest := RestOf(ss);
      Serves(ts[0], StateAt(ss, 0)) && ServesAll(ts[1..], rest)
  }

  ghost predicate DynServes(d: DynState)
    decreases DynSize(d), 0
  {
    NamedServe(d.names, d.states)
  }

  ghost predicate NamedServe(names: seq<string>, ss: seq<SkipState>)
    decreases |names| + StatesSize(ss), 0
  {
    if names == [] then true
    else
      var rest := RestOf(ss);
      ParseType(names[0]).Ok? && Serves(ParseType(names[0]).value, StateAt(ss, 0)) && NamedServe(names[1..], rest)
  }

  ghost predicate DynsServe(ds: seq<DynState>)
    decreases DynsSize(ds), 0
  {
    ds != [] ==> DynServes(ds[0]) && DynsServe(ds[1..])
  }

  lemma {:induction false} ShapeServes(t: ColumnType, s: SkipState)
    requires Shape(t, s)
    ensures Serves(t, s)
    decreases StateSize(s), TypeSize(t)
  {
    hide Shapes, ServesAll, DynShape, DynServes, DynShapes, DynsServe;
    if t.Nullable? || t.Array? || t.LowCardinality? {
      ShapeServes(t.inner, s.inner);
    } else if t.Map? {
      ShapeServes(t.key, s.key);
      ShapeServes(t.value, s.value);
    } else if t.Tuple? {
      ShapesServe(t.elems, s.elems);
    } else if t.Variant? {
      ShapesServe(t.types, s.elems);
    } else if t.Dynamic? {
      DynShapeServes(s.dynamic);
    } else if t.JSON? {
      DynShapesServe(s.paths);
    }
  }

  lemma {:induction false} ShapesServe(ts: seq<ColumnType>, ss: seq<SkipState>)
    requires Shapes(ts, ss)
    ensures ServesAll(ts, ss)
    decreases StatesSize(ss), TypesSize(ts)
  {
    hide Shape, Serves;
    if ts != [] {
      ShapeServes(ts[0], ss[0]);
      ShapesServe(ts[1..], ss[1..]);
    }
  }

  lemma {:induction false} DynShapeServes(d: DynState)
    requires DynShape(d)
    ensures DynServes(d)
    decreases DynSize(d), 0
  {
    NamedShapesServe(d.names, d.states);
  }

  lemma {:induction false} NamedShapesServe(names: seq<string>, ss: seq<SkipState>)
    requires NamedShapes(names, ss)
    ensures NamedServe(names, ss)
    decreases |names| + StatesSize(ss), 0
  {
    hide Shape, Serves, ParseType;
    if names != [] {
      ShapeServes(ParseType(names[0]).value, ss[0]);
      NamedShapesServe(names[1..], ss[1..]);
    }
  }

  lemma {:induction false} DynShapesServe(ds: seq<DynState>)
    requires DynShapes(ds)
    ensures DynsServe(ds)
    decreases DynsSize(ds), 0
  {
    hide DynShape, DynServes;
    if ds != [] {
      DynShapeServes(ds[0]);
      DynShapesServe(ds[1..]);
    }
  }

  /** Not refused for want of a state or of a parsable type name. */
  predicate Found(r: Result<nat>)
  {
    r.Err? ==> r.error != MissingState && r.error != BadTypeName
  }

  lemma {:induction false} GroupsFound(buf: seq<byte>, pos: nat, k: nat)
    requires k <= Varint.MAX_VARINT_BYTES && Varint.ReadGroups(buf, pos, k).Err?
    ensures Varint.ReadGroups(buf, pos, k).error in {Truncated, VarintOverflow}
    decreases Varint.MAX_VARINT_BYTES - k
  {
    if pos < |buf| && k < Varint.MAX_VARINT_BYTES && !(k == 9 && buf[pos] % 128 > 1) && buf[pos] >= 128 {
      GroupsFound(buf, pos + 1, k + 1);
    }
  }

  lemma {:induction false} StringsFound(buf: seq<byte>, pos: nat, rows: nat)
    requires pos <= |buf|
    ensures Found(SkipStrings(buf, pos, rows))
    decreases rows
  {
    if rows > 0 {
      var r := Varint.VarintAt(buf, pos);
      if r.Err? {
        GroupsFound(buf, pos, 0);
      } else {
        var (n, p) := r.value;
        if StringLen(n).Ok? && Advance(buf, p, n).Ok? {
          StringsFound(buf, p + n, rows - 1);
        }
      }
    }
  }

  lemma {:induction false} OffsetsFound(buf: seq<byte>, pos: nat, rows: nat, prev: nat)
    requires pos + 8 * rows <= |buf| && OffsetsFrom(buf, pos, rows, prev).Err?
    ensures OffsetsFrom(buf, pos, rows, prev).error in {TooLarge, OffsetDecreased}
    decreases rows
  {
    if rows > 0 {
      var v := LeValue(buf[pos..pos + 8]);
      if NextOffset(prev, v).Ok? {
        OffsetsFound(buf, pos + 8, rows - 1, v);
      }
    }
  }

  lemma SkipOffsetsFound(buf: seq<byte>, pos: nat, rows: nat)
    requires SkipOffsets(buf, pos, rows).Err?
    ensures SkipOffsets(buf, pos, rows).error != MissingState && SkipOffsets(buf, pos, rows).error != BadTypeName
  {
    if AdvanceCells(buf, pos, rows, 8).Ok? {
      OffsetsFound(buf, pos, rows, 0);
    }
  }

  lemma LayoutFound(buf: seq<byte>, pos: nat, layout: Layout, rows: nat)
    requires pos <= |buf|
    ensures Found(SkipLayout(buf, pos, layout, rows))
  {
    if layout.Texts? {
      StringsFound(buf, pos, rows);
    }
  }

  lemma PointFound(buf: seq<byte>, pos: nat, rows: nat)
    requires pos <= |buf|
    ensures Found(SkipPoint(buf, pos, rows))
  {
    hide SkipLayout;
    LayoutFound(buf, pos, Cells(8), rows);
    var r := SkipLayout(buf, pos, Cells(8), rows);
    if r.Ok? {
      LayoutFound(buf, r.value, Cells(8), rows);
    }
  }

  lemma {:induction false} BodyFinds(buf: seq<byte>, pos: nat, t: ColumnType, s: SkipState, rows: nat)
    requires pos <= |buf| && Serves(t, s)
    ensures Found(SkipBody(buf, pos, t, s, rows))
    decreases StateSize(s), TypeSize(t), 1
  {
    hide SkipOffsets, SkipMapBody, SkipElems, SkipDictionary, SkipJsonBody, SkipDynamicBody, SkipVariantBody, SkipPoint, SkipLayout, LayoutOf, ServesAll, DynServes, DynsServe;
    if rows != 0 {
      if t.Nullable? {
        if Advance(buf, pos, rows).Ok? { BodyFinds(buf, pos + rows, t.inner, NullableInner(s), rows); }
      } else if t.Array? {
        var r := SkipOffsets(buf, pos, rows);
        if r.Err? { SkipOffsetsFound(buf, pos, rows); }
        else { BodyFinds(buf, r.value.1, t.inner, ArrayInner(s), r.value.0); }
      } else if t.Map? {
        MapFinds(buf, pos, t, s, rows);
      } else if t.Tuple? {
        ElemsFind(buf, pos, t.elems, TupleElems(s), rows);
      } else if t.LowCardinality? {
        DictionaryFinds(buf, pos, t.inner, LowCardinalityInner(s), rows);
      } else if t.JSON? {
        JsonFinds(buf, pos, s.version, s.paths, rows);
      } else if t.Dynamic? {
        DynamicFinds(buf, pos, s.dynamic, rows);
      } else if t.Variant? {
        VariantFinds(buf, pos, t.types, VariantElems(s), rows);
      } else if t.Point? {
        PointFound(buf, pos, rows);
      } else if IsAlias(t) {
        AliasServes(t);
        BodyFinds(buf, pos, Alias(t), NoState, rows);
      } else {
        LayoutFound(buf, pos, LayoutOf(t), rows);
      }
    }
  }

  lemma AliasServes(t: ColumnType)
    requires IsAlias(t)
    ensures Serves(Alias(t), NoState)
  {
  }

  lemma {:induction false} MapFinds(buf: seq<byte>, pos: nat, t: ColumnType, s: SkipState, rows: nat)
    requires pos <= |buf| && t.Map? && Serves(t, s)
    ensures Found(SkipMapBody(buf, pos, t.key, t.value, s, rows))
    decreases StateSize(s), TypeSize(t), 0
  {
    hide SkipOffsets, SkipBody;
    var r := SkipOffsets(buf, pos, rows);
    if r.Err? {
      SkipOffsetsFound(buf, pos, rows);
    } else {
      BodyFinds(buf, r.value.1, t.key, MapKey(s), r.value.0);
      var q := SkipBody(buf, r.value.1, t.key, MapKey(s), r.value.0);
      if q.Ok? { BodyFinds(buf, q.value, t.value, MapValue(s), r.value.0); }
    }
  }

  lemma {:induction false} ElemsFind(buf: seq<byte>, pos: nat, ts: seq<ColumnType>, ss: seq<SkipState>, rows: nat)
    requires pos <= |buf| && ServesAll(ts, ss)
    ensures Found(SkipElems(buf, pos, ts, ss, rows))
    decreases StatesSize(ss), TypesSize(ts), 1
  {
    hide SkipBody, Serves;
    if ts != [] {
      var rest := RestOf(ss);
      BodyFinds(buf, pos, ts[0], StateAt(ss, 0), rows);
      var r := SkipBody(buf, pos, ts[0], StateAt(ss, 0), rows);
      if r.Ok? { ElemsFind(buf, r.value, ts[1..], rest, rows); }
    }
  }

  lemma {:induction false} CountedFind(buf: seq<byte>, pos: nat, ts: seq<ColumnType>, ss: seq<SkipState>, counts: seq<nat>)
    requires pos <= |buf| && |counts| == |ts| && ServesAll(ts, ss)
    ensures Found(SkipCounted(buf, pos, ts, ss, counts))
    decreases StatesSize(ss), TypesSize(ts), 1
  {
    hide SkipBody, Serves;
    if ts != [] {
      var rest := RestOf(ss);
      BodyFinds(buf, pos, ts[0], StateAt(ss, 0), counts[0]);
      var r := SkipBody(buf, pos, ts[0], StateAt(ss, 0), counts[0]);
      if r.Ok? { CountedFind(buf, r.value, ts[1..], rest, counts[1..]); }
    }
  }

  lemma {:induction false} ServesMember(ts: seq<ColumnType>, ss: seq<SkipState>, i: nat)
    requires ServesAll(ts, ss) && i < |ts|
    ensures Serves(ts[i], StateAt(ss, i))
    decreases i
  {
    hide Serves;
    if i > 0 {
      ServesMember(ts[1..], RestOf(ss), i - 1);
      assert StateAt(RestOf(ss), i - 1) == StateAt(ss, i);
    }
  }

  lemma {:induction false} VariantFinds(buf: seq<byte>, pos: nat, ts: seq<ColumnType>, ss: seq<SkipState>, rows: nat)
    requires pos <= |buf| && ServesAll(ts, ss)
    ensures Found(SkipVariantBody(buf, pos, ts, ss, rows))
    decreases StatesSize(ss), TypesSize(ts), 2
  {
    hide SkipBody, SkipCounted, Serves, Counts, LeValue;
    if U64At(buf, pos).Ok? && rows != 0 && ts != [] {
      var mode := U64At(buf, pos).value.0;
      if mode == 0 {
        if Advance(buf, pos + 8, rows).Ok? {
          CountedFind(buf, pos + 8 + rows, ts, ss, Counts(buf[pos + 8..pos + 8 + rows], |ts|));
        }
      } else if U64At(buf, pos + 8).Ok? && U64At(buf, pos + 16).Ok? {
        var disc, compact := U64At(buf, pos + 8).value.0, U64At(buf, pos + 16).value.0;
        if disc < |ts| {
          MemberSize(ts, disc);
          StateAtSize(ss, disc);
          ServesMember(ts, ss, disc);
          BodyFinds(buf, pos + 24, ts[disc], StateAt(ss, disc), compact);
        }
      }
    }
  }

  lemma {:induction false} DictionaryFinds(buf: seq<byte>, pos: nat, t: ColumnType, s: SkipState, rows: nat)
    requires pos <= |buf| && Serves(t, s)
    ensures Found(SkipDictionary(buf, pos, t, s, rows))
    decreases StateSize(s), TypeSize(t), 2
  {
    hide SkipBody, LeValue, Serves;
    var h := DictionaryHeader(buf, pos);
    if h.Ok? {
      BodyFinds(buf, h.value.2, t, s, h.value.1);
    }
  }

  lemma {:induction false} DynamicFinds(buf: seq<byte>, pos: nat, d: DynState, rows: nat)
    requires pos <= |buf| && DynServes(d)
    ensures Found(SkipDynamicBody(buf, pos, d, rows))
    decreases DynSize(d), 0, 0
  {
    hide SkipCountedNames, NamedServe, Counts, Chunks;
    if !(rows == 0 || d.names == [] || d.version == 0) {
      var r := ReadDiscs(buf, pos, d.version, |d.names|, rows);
      if r.Ok? {
        CountedNamesFind(buf, r.value.1, d.names, d.states, Counts(r.value.0, |d.names|));
      }
    }
  }

  lemma {:induction false} CountedNamesFind(buf: seq<byte>, pos: nat, names: seq<string>, ss: seq<SkipState>, counts: seq<nat>)
    requires pos <= |buf| && |counts| == |names| && NamedServe(names, ss)
    ensures Found(SkipCountedNames(buf, pos, names, ss, counts))
    decreases |names| + StatesSize(ss), 0, 0
  {
    hide SkipBody, Serves, ParseType;
    if names != [] {
      var rest := RestOf(ss);
      if counts[0] == 0 {
        CountedNamesFind(buf, pos, names[1..], rest, counts[1..]);
      } else {
        var t := ParseType(names[0]).value;
        BodyFinds(buf, pos, t, StateAt(ss, 0), counts[0]);
        var r := SkipBody(buf, pos, t, StateAt(ss, 0), counts[0]);
        if r.Ok? { CountedNamesFind(buf, r.value, names[1..], rest, counts[1..]); }
      }
    }
  }

  lemma {:induction false} JsonFinds(buf: seq<byte>, pos: nat, version: nat, ds: seq<DynState>, rows: nat)
    requires pos <= |buf| && DynsServe(ds)
    ensures Found(SkipJsonBody(buf, pos, version, ds, rows))
    decreases DynsSize(ds), 1, 0
  {
    hide SkipDynamicBodies, SkipStrings, DynsServe;
    StringsFound(buf, pos, rows);
    DynamicsFind(buf, pos, ds, rows);
  }

  lemma {:induction false} DynamicsFind(buf: seq<byte>, pos: nat, ds: seq<DynState>, rows: nat)
    requires pos <= |buf| && DynsServe(ds)
    ensures Found(SkipDynamicBodies(buf, pos, ds, rows))
    decreases DynsSize(ds), 0, 0
  {
    hide SkipDynamicBody, DynServes;
    if ds != [] {
      DynamicFinds(buf, pos, ds[0], rows);
      var r := SkipDynamicBody(buf, pos, ds[0], rows);
      if r.Ok? { DynamicsFind(buf, r.value, ds[1..], rows); }
    }
  }

  // --------------------------------------------------------------------------
  // The two halves together
  // --------------------------------------------------------------------------

  /** A body read with the state of its own prefix never lacks a state and
      never meets a type name that does not parse. */
  lemma PrefixedBodyFindsState(buf: seq<byte>, pos: nat, t: ColumnType, at: nat, rows: nat)
    requires pos <= |buf| && at <= |buf| && SkipPrefix(buf, pos, t).Ok?
    ensures Found(SkipBody(buf, at, t, SkipPrefix(buf, pos, t).value.0, rows))
  {
    hide SkipPrefix, SkipBody, Shape, Serves;
    PrefixShape(buf, pos, t);
    ShapeServes(t, SkipPrefix(buf, pos, t).value.0);
    BodyFinds(buf, at, t, SkipPrefix(buf, pos, t).value.0, rows);
  }

  /** The same for Variant columns, whose member states travel together. */
  lemma VariantFindsStates(buf: seq<byte>, pos: nat, ts: seq<ColumnType>, at: nat, rows: nat)
    requires pos <= |buf| && at <= |buf| && SkipPrefixes(buf, pos, ts).Ok?
    ensures Found(SkipVariantBody(buf, at, ts, SkipPrefixes(buf, pos, ts).value.0, rows))
  {
    hide SkipPrefixes, SkipVariantBody, Shapes, ServesAll;
    PrefixShapes(buf, pos, ts);
    ShapesServe(ts, SkipPrefixes(buf, pos, ts).value.0);
    VariantFinds(buf, at, ts, SkipPrefixes(buf, pos, ts).value.0, rows);
  }

  /** And for Dynamic columns. */
  lemma DynamicFindsStates(buf: seq<byte>, pos: nat, at: nat, rows: nat)
    requires pos <= |buf| && at <= |buf| && SkipDynamicState(buf, pos).Ok?
    ensures Found(SkipDynamicBody(buf, at, SkipDynamicState(buf, pos).value.0, rows))
  {
    hide SkipDynamicState, SkipDynamicBody, DynShape, DynServes;
    DynamicShape(buf, pos);
    DynShapeServes(SkipDynamicState(buf, pos).value.0);
    DynamicFinds(buf, at, SkipDynamicState(buf, pos).value.0, rows);
  }

  /** The one place where a state is missing: a materialized LowCardinality
      column passes none to its dictionary, so over JSON or Dynamic it is
      refused exactly when the header is good and announces a key. */
  lemma DictionaryLacksState(buf: seq<byte>, pos: nat, inner: ColumnType, rows: nat)
    requires pos <= |buf| && rows > 0 && (inner.JSON? || inner.Dynamic?)
    ensures SkipData(buf, pos, LowCardinality(inner), rows) == Err(MissingState) <==>
            DictionaryHeader(buf, pos).Ok? && DictionaryHeader(buf, pos).value.1 > 0
  {
    hide LeValue;
    var r := DictionaryHeader(buf, pos);
    if r.Ok? {
      assert SkipBody(buf, r.value.2, inner, NoState, r.value.1)
          == if r.value.1 == 0 then Ok(r.value.2) else Err(MissingState);
    }
    assert SkipData(buf, pos, LowCardinality(inner), rows) == SkipDictionary(buf, pos, inner, NoState, rows);
  }
}
