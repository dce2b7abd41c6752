/** Every well-formed column, wherever it stands and whatever follows it, is
    skipped exactly to its end. */
module FramingComplete {
  import opened Bytes
  import opened Limits
  import opened Varint
  import Utf8
  import opened ColumnTypes
  import opened TypeText
  import opened SkipSpec
  import opened WireFormat

  // --------------------------------------------------------------------------
  // Flat pieces
  // --------------------------------------------------------------------------

  lemma U64Complete(buf: seq<byte>, pos: nat, v: nat)
    requires v < U64_LIMIT && Occurs(buf, pos, U64Bytes(v))
    ensures U64At(buf, pos) == Ok((v, pos + 8))
  {
  }

  lemma {:induction false} StringsComplete(buf: seq<byte>, pos: nat, items: seq<Str>)
    requires StrsOk(items) && Occurs(buf, pos, StrsWire(items))
    ensures SkipStrings(buf, pos, |items|) == Ok(pos + |StrsWire(items)|)
    decreases |items|
  {
    hide VarintAt, IsVarint, GroupValue;
    if items != [] {
      var s, rest := items[0], StrsWire(items[1..]);
      OccursConcat(buf, pos, s.len, s.body + rest);
      OccursConcat(buf, pos + |s.len|, s.body, rest);
      assert StrOk(s);
      VarintOccurs(buf, pos, s.len);
      StringsComplete(buf, pos + |s.len| + |s.body|, items[1..]);
    }
  }

  lemma LengthOccurs(buf: seq<byte>, pos: nat, s: Str)
    requires StrOk(s) && Occurs(buf, pos, s.len)
    ensures VarintAt(buf, pos) == Ok((|s.body|, pos + |s.len|)) && |s.body| <= MAX_STRING_BYTES
  {
    VarintOccurs(buf, pos, s.len);
  }

  lemma {:induction false} NamesComplete(buf: seq<byte>, pos: nat, items: seq<Str>, names: seq<string>)
    requires NamesOk(items, names) && Occurs(buf, pos, StrsWire(items))
    ensures ReadNames(buf, pos, |items|) == Ok((names, pos + |StrsWire(items)|))
    decreases |items|
  {
    hide VarintAt, IsVarint, GroupValue, Utf8.Decode, StrOk, ReadNames;
    if items == [] {
      NoneToRead(buf, pos);
    } else {
      var s, rest := items[0], StrsWire(items[1..]);
      OccursConcat(buf, pos, s.len, s.body + rest);
      OccursConcat(buf, pos + |s.len|, s.body, rest);
      LengthOccurs(buf, pos, s);
      NamesComplete(buf, pos + |s.len| + |s.body|, items[1..], names[1..]);
      FirstName(buf, pos, s, names[0], |items|);
      assert [names[0]] + names[1..] == names;
    }
  }

  lemma NoneToRead(buf: seq<byte>, pos: nat)
    requires pos <= |buf|
    ensures ReadNames(buf, pos, 0) == Ok(([], pos))
  {
  }

  lemma FirstName(buf: seq<byte>, pos: nat, s: Str, name: string, count: nat)
    requires count > 0 && VarintAt(buf, pos) == Ok((|s.body|, pos + |s.len|)) && |s.body| <= MAX_STRING_BYTES
    requires Occurs(buf, pos + |s.len|, s.body) && Utf8.Decode(s.body) == Some(name)
    ensures var rest := ReadNames(buf, pos + |s.len| + |s.body|, count - 1);
            rest.Ok? ==> ReadNames(buf, pos, count) == Ok(([name] + rest.value.0, rest.value.1))
  {
    hide VarintAt, Utf8.Decode;
  }

  lemma {:induction false} OffsetsFromComplete(buf: seq<byte>, pos: nat, offsets: seq<nat>, prev: nat)
    requires Ascending(prev, offsets) && Occurs(buf, pos, OffsetsWire(offsets))
    ensures OffsetsFrom(buf, pos, |offsets|, prev) == Ok(LastOf(prev, offsets))
    decreases |offsets|
  {
    if offsets != [] {
      OccursConcat(buf, pos, U64Bytes(offsets[0]), OffsetsWire(offsets[1..]));
      OffsetsFromComplete(buf, pos + 8, offsets[1..], offsets[0]);
    }
  }

  lemma OffsetsComplete(buf: seq<byte>, pos: nat, offsets: seq<nat>, rows: nat)
    requires OffsetsOk(offsets, rows) && Occurs(buf, pos, OffsetsWire(offsets))
    ensures SkipOffsets(buf, pos, rows) == Ok((LastOf(0, offsets), pos + |OffsetsWire(offsets)|))
  {
    OffsetsFromComplete(buf, pos, offsets, 0);
  }

  lemma {:induction false} LayoutComplete(buf: seq<byte>, pos: nat, layout: Layout, rows: nat, c: Column)
    requires FitsLayout(layout, rows, c) && Occurs(buf, pos, Wire(c))
    ensures SkipLayout(buf, pos, layout, rows) == Ok(pos + |Wire(c)|)
  {
    if layout.Texts? {
      StringsComplete(buf, pos, c.items);
    }
  }

  lemma {:induction false} PointComplete(buf: seq<byte>, pos: nat, rows: nat, c: Column)
    requires FitsPoint(rows, c) && Occurs(buf, pos, Wire(c))
    ensures SkipPoint(buf, pos, rows) == Ok(pos + |Wire(c)|)
  {
    OccursConcat(buf, pos, Wire(c.first), Wire(c.rest));
    LayoutComplete(buf, pos, Cells(8), rows, c.first);
    LayoutComplete(buf, pos + |Wire(c.first)|, Cells(8), rows, c.rest);
  }

  lemma HeaderComplete(buf: seq<byte>, pos: nat, serial: nat, keys: nat)
    requires Occurs(buf, pos, HeaderWire(serial, keys))
    requires serial < U64_LIMIT && keys <= MAX_JSON_DYNAMIC_ITEMS && IndexWidth(1, serial).Ok?
    ensures DictionaryHeader(buf, pos) == Ok((IndexWidth(1, serial).value, keys, pos + 24))
  {
    OccursConcat(buf, pos, U64Bytes(1), U64Bytes(serial) + U64Bytes(keys));
    OccursConcat(buf, pos + 8, U64Bytes(serial), U64Bytes(keys));
  }

  lemma DiscsComplete(buf: seq<byte>, pos: nat, version: nat, types: nat, rows: nat, bytes: seq<byte>, discs: seq<nat>)
    requires FitsDiscs(version, types, rows, bytes, discs) && Occurs(buf, pos, bytes)
    ensures ReadDiscs(buf, pos, version, types, rows) == Ok((discs, pos + |bytes|))
  {
  }

  // --------------------------------------------------------------------------
  // State prefixes
  // --------------------------------------------------------------------------

  lemma NameListComplete(buf: seq<byte>, pos: nat, count: seq<byte>, items: seq<Str>, names: seq<string>)
    requires CountOk(count, |items|) && NamesOk(items, names) && Occurs(buf, pos, count + StrsWire(items))
    ensures ReadNameList(buf, pos) == Ok((names, pos + |count + StrsWire(items)|))
  {
    hide VarintAt, IsVarint, GroupValue, NamesOk, ReadNames, StrsWire;
    OccursConcat(buf, pos, count, StrsWire(items));
    VarintOccurs(buf, pos, count);
    NamesComplete(buf, pos + |count|, items, names);
  }

  lemma DynamicNamesComplete(buf: seq<byte>, pos: nat, p: Prefix, d: DynState)
    requires FitsDynamic(p, d)
    requires Occurs(buf, pos, NamesWire(p.version, p.maxTypes, p.count, p.names, p.variantVersion))
    ensures ReadDynamicNames(buf, pos, p.version)
         == Ok((d.names, pos + |NamesWire(p.version, p.maxTypes, p.count, p.names, p.variantVersion)|))
  {
    hide VarintAt, IsVarint, GroupValue, ReadNameList, StrsWire, Utf8.Decode, U64Bytes, FitsNamed, Occurs, U64At;
    if p.version == 1 {
      OldNamesComplete(buf, pos, p.maxTypes, p.count, p.names, p.variantVersion, d.names);
    } else if p.version != 0 {
      NameListComplete(buf, pos, p.count, p.names, d.names);
    }
  }

  lemma OldNamesComplete(buf: seq<byte>, pos: nat, maxTypes: seq<byte>, count: seq<byte>, items: seq<Str>, variantVersion: nat, names: seq<string>)
    requires IsVarint(maxTypes) && CountOk(count, |items|) && NamesOk(items, names) && variantVersion < U64_LIMIT
    requires Occurs(buf, pos, maxTypes + (count + StrsWire(items) + U64Bytes(variantVersion)))
    ensures ReadDynamicNames(buf, pos, 1)
         == Ok((names, pos + |maxTypes + (count + StrsWire(items) + U64Bytes(variantVersion))|))
  {
    hide VarintAt, IsVarint, GroupValue, ReadNameList, StrsWire, Utf8.Decode, U64Bytes, Occurs, NamesOk, U64At;
    var list := count + StrsWire(items);
    OccursConcat(buf, pos, maxTypes, list + U64Bytes(variantVersion));
    OccursConcat(buf, pos + |maxTypes|, list, U64Bytes(variantVersion));
    VarintOccurs(buf, pos, maxTypes);
    NameListComplete(buf, pos + |maxTypes|, count, items, names);
    U64Complete(buf, pos + |maxTypes| + |list|, variantVersion);
  }

  lemma {:induction false} PrefixComplete(buf: seq<byte>, pos: nat, t: ColumnType, p: Prefix, s: SkipState)
    requires FitsPrefix(t, p, s) && Occurs(buf, pos, PrefixWire(p))
    ensures SkipPrefix(buf, pos, t) == Ok((s, pos + |PrefixWire(p)|))
    decreases p, 2
  {
    hide Occurs, FitsDynamic, FitsJson, SkipDynamicState, SkipJsonState;
    if t.Nullable? || t.Array? || t.LowCardinality? {
      PrefixComplete(buf, pos, t.inner, p.inner, s.inner);
    } else if t.Map? {
      OccursConcat(buf, pos, PrefixWire(p.first), PrefixWire(p.rest));
      PrefixComplete(buf, pos, t.key, p.first, s.key);
      PrefixComplete(buf, pos + |PrefixWire(p.first)|, t.value, p.rest, s.value);
    } else if t.Tuple? {
      PrefixesComplete(buf, pos, t.elems, p, s.elems);
    } else if t.Variant? {
      PrefixesComplete(buf, pos, t.types, p, s.elems);
    } else if t.Dynamic? {
      DynamicStateComplete(buf, pos, p, s.dynamic);
    } else if t.JSON? {
      JsonStateComplete(buf, pos, p, s.version, s.paths);
    }
  }

  lemma {:induction false} PrefixesComplete(buf: seq<byte>, pos: nat, ts: seq<ColumnType>, p: Prefix, ss: seq<SkipState>)
    requires FitsPrefixes(ts, p, ss) && Occurs(buf, pos, PrefixWire(p))
    ensures SkipPrefixes(buf, pos, ts) == Ok((ss, pos + |PrefixWire(p)|))
    decreases p, 0
  {
    hide Occurs, FitsPrefix, SkipPrefix;
    if ts != [] {
      OccursConcat(buf, pos, PrefixWire(p.first), PrefixWire(p.rest));
      PrefixComplete(buf, pos, ts[0], p.first, ss[0]);
      PrefixesComplete(buf, pos + |PrefixWire(p.first)|, ts[1..], p.rest, ss[1..]);
      assert [ss[0]] + ss[1..] == ss;
    }
  }

  lemma {:induction false} DynamicStateComplete(buf: seq<byte>, pos: nat, p: Prefix, d: DynState)
    requires FitsDynamic(p, d) && Occurs(buf, pos, PrefixWire(p))
    ensures SkipDynamicState(buf, pos) == Ok((d, pos + |PrefixWire(p)|))
    decreases p, 0
  {
    hide Occurs, NamesWire, NamesOk, ReadDynamicNames, SkipNamed, FitsNamed, CountOk, IsVarint, U64At, U64Bytes;
    var names, subs := NamesWire(p.version, p.maxTypes, p.count, p.names, p.variantVersion), PrefixWire(p.subs);
    OccursConcat(buf, pos, U64Bytes(p.version), names + subs);
    OccursConcat(buf, pos + 8, names, subs);
    U64Complete(buf, pos, p.version);
    DynamicNamesComplete(buf, pos + 8, p, d);
    NamedComplete(buf, pos + 8 + |names|, d.names, p.subs, d.states);
  }

  lemma {:induction false} NamedComplete(buf: seq<byte>, pos: nat, names: seq<string>, p: Prefix, ss: seq<SkipState>)
    requires FitsNamed(names, p, ss) && Occurs(buf, pos, PrefixWire(p))
    ensures SkipNamed(buf, pos, names) == Ok((ss, pos + |PrefixWire(p)|))
    decreases p, 0
  {
    hide Occurs, FitsPrefix, SkipPrefix, ParseType;
    if names != [] {
      OccursConcat(buf, pos, PrefixWire(p.first), PrefixWire(p.rest));
      PrefixComplete(buf, pos, ParseType(names[0]).value, p.first, ss[0]);
      NamedComplete(buf, pos + |PrefixWire(p.first)|, names[1..], p.rest, ss[1..]);
      assert [ss[0]] + ss[1..] == ss;
    }
  }

  lemma {:induction false} JsonStateComplete(buf: seq<byte>, pos: nat, p: Prefix, version: nat, ds: seq<DynState>)
    requires FitsJson(p, version, ds) && Occurs(buf, pos, PrefixWire(p))
    ensures SkipJsonState(buf, pos) == Ok((JsonState(version, ds), pos + |PrefixWire(p)|))
    decreases p, 1
  {
    hide Occurs, VarintAt, IsVarint, GroupValue, U64At, U64Bytes, SkipJsonPaths, StrsWire, FitsDynamics, StrsOk, CountOk;
    var paths, subs := PathsWire(p.version, p.maxPaths, p.count, p.paths), PrefixWire(p.subs);
    OccursConcat(buf, pos, U64Bytes(p.version), paths + subs);
    OccursConcat(buf, pos + 8, paths, subs);
    U64Complete(buf, pos, p.version);
    var list := p.count + StrsWire(p.paths);
    if version == 3 {
      JsonPathsComplete(buf, pos + 8, p, ds);
    } else if version == 0 {
      OccursConcat(buf, pos + 8, p.maxPaths, list);
      VarintOccurs(buf, pos + 8, p.maxPaths);
      assert pos + 8 + |paths| == pos + 8 + |p.maxPaths| + |list|;
      JsonPathsComplete(buf, pos + 8 + |p.maxPaths|, p, ds);
    }
  }

  lemma {:induction false} JsonPathsComplete(buf: seq<byte>, pos: nat, p: Prefix, ds: seq<DynState>)
    requires p.JsonPrefix? && CountOk(p.count, |p.paths|) && StrsOk(p.paths) && |ds| == |p.paths|
    requires FitsDynamics(p.subs, ds)
    requires Occurs(buf, pos, p.count + StrsWire(p.paths))
    requires Occurs(buf, pos + |p.count + StrsWire(p.paths)|, PrefixWire(p.subs))
    ensures SkipJsonPaths(buf, pos) == Ok((ds, pos + |p.count + StrsWire(p.paths)| + |PrefixWire(p.subs)|))
    decreases p, 0
  {
    hide Occurs, VarintAt, IsVarint, GroupValue, StrsWire, FitsDynamics, StrsOk, SkipStrings, SkipDynamicStates;
    OccursConcat(buf, pos, p.count, StrsWire(p.paths));
    VarintOccurs(buf, pos, p.count);
    StringsComplete(buf, pos + |p.count|, p.paths);
    DynamicStatesComplete(buf, pos + |p.count + StrsWire(p.paths)|, p.subs, ds);
  }

  lemma {:induction false} DynamicStatesComplete(buf: seq<byte>, pos: nat, p: Prefix, ds: seq<DynState>)
    requires FitsDynamics(p, ds) && Occurs(buf, pos, PrefixWire(p))
    ensures SkipDynamicStates(buf, pos, |ds|) == Ok((ds, pos + |PrefixWire(p)|))
    decreases p, 0
  {
    hide Occurs, FitsDynamic, SkipDynamicState;
    if ds != [] {
      OccursConcat(buf, pos, PrefixWire(p.first), PrefixWire(p.rest));
      DynamicStateComplete(buf, pos, p.first, ds[0]);
      DynamicStatesComplete(buf, pos + |PrefixWire(p.first)|, p.rest, ds[1..]);
      assert [ds[0]] + ds[1..] == ds;
    }
  }

  // --------------------------------------------------------------------------
  // Bodies
  // --------------------------------------------------------------------------

  lemma {:induction false} BodyComplete(buf: seq<byte>, pos: nat, t: ColumnType, s: SkipState, rows: nat, c: Column)
    requires FitsBody(t, s, rows, c) && Occurs(buf, pos, Wire(c))
    ensures SkipBody(buf, pos, t, s, rows) == Ok(pos + |Wire(c)|)
    decreases c, TypeSize(t), 2
  {
    hide Occurs, FitsBody, SkipBody, Wire, TypeSize;
    if rows == 0 {
      NoRowsComplete(buf, pos, t, s, c);
    } else if t.Nullable? {
      NullableBodyComplete(buf, pos, t, s, rows, c);
    } else if t.Array? {
      ArrayBodyComplete(buf, pos, t, s, rows, c);
    } else if t.Map? {
      MapBodyComplete(buf, pos, t, s, rows, c);
      MapBody(buf, pos, t, s, rows);
    } else if t.Tuple? || t.LowCardinality? {
      CompositeBodyComplete(buf, pos, t, s, rows, c);
    } else if t.JSON? || t.Dynamic? || t.Variant? {
      StatefulBodyComplete(buf, pos, t, s, rows, c);
    } else {
      FlatBodyComplete(buf, pos, t, s, rows, c);
    }
  }

  lemma NoRowsComplete(buf: seq<byte>, pos: nat, t: ColumnType, s: SkipState, c: Column)
    requires FitsBody(t, s, 0, c) && Occurs(buf, pos, Wire(c))
    ensures SkipBody(buf, pos, t, s, 0) == Ok(pos + |Wire(c)|)
  {
  }

  lemma {:induction false} CompositeBodyComplete(buf: seq<byte>, pos: nat, t: ColumnType, s: SkipState, rows: nat, c: Column)
    requires (t.Tuple? || t.LowCardinality?) && rows != 0
    requires FitsBody(t, s, rows, c) && Occurs(buf, pos, Wire(c))
    ensures SkipBody(buf, pos, t, s, rows) == Ok(pos + |Wire(c)|)
    decreases c, TypeSize(t), 1
  {
    hide Occurs, Wire, SkipElems, SkipDictionary, FitsElems, DictionaryOk;
    if t.Tuple? {
      ElemsComplete(buf, pos, t.elems, TupleElems(s), rows, c);
    } else {
      DictionaryComplete(buf, pos, t.inner, LowCardinalityInner(s), rows, c);
    }
  }

  /** Points, aliases and the types that contain no other. */
  lemma {:induction false} FlatBodyComplete(buf: seq<byte>, pos: nat, t: ColumnType, s: SkipState, rows: nat, c: Column)
    requires t.Point? || IsAlias(t) || IsSimple(t)
    requires rows != 0 && FitsBody(t, s, rows, c) && Occurs(buf, pos, Wire(c))
    ensures SkipBody(buf, pos, t, s, rows) == Ok(pos + |Wire(c)|)
    decreases c, TypeSize(t), 1
  {
    hide Occurs, Wire, SkipPoint, SkipLayout, LayoutOf, FitsPoint, FitsLayout, FitsBody, SkipBody;
    if t.Point? {
      PointBody(buf, pos, s, rows, c);
      PointComplete(buf, pos, rows, c);
    } else if IsAlias(t) {
      AliasBody(buf, pos, t, s, rows, c);
      BodyComplete(buf, pos, Alias(t), NoState, rows, c);
    } else {
      SimpleBody(buf, pos, t, s, rows, c);
      LayoutComplete(buf, pos, LayoutOf(t), rows, c);
    }
  }

  lemma {:induction false} PointBody(buf: seq<byte>, pos: nat, s: SkipState, rows: nat, c: Column)
    requires rows != 0 && pos <= |buf|
    ensures FitsBody(Point, s, rows, c) == FitsPoint(rows, c)
    ensures SkipBody(buf, pos, Point, s, rows) == SkipPoint(buf, pos, rows)
  {
    hide SkipPoint, FitsPoint;
  }

  lemma AliasBody(buf: seq<byte>, pos: nat, t: ColumnType, s: SkipState, rows: nat, c: Column)
    requires IsAlias(t) && rows != 0 && pos <= |buf|
    ensures FitsBody(t, s, rows, c) == FitsBody(Alias(t), NoState, rows, c)
    ensures SkipBody(buf, pos, t, s, rows) == SkipBody(buf, pos, Alias(t), NoState, rows)
  {
    hide Alias, SkipBody, FitsBody;
    AliasFits(t, s, rows, c);
    AliasSkipped(buf, pos, t, s, rows);
  }

  lemma {:induction false} AliasFits(t: ColumnType, s: SkipState, rows: nat, c: Column)
    requires IsAlias(t) && rows != 0
    ensures FitsBody(t, s, rows, c) == FitsBody(Alias(t), NoState, rows, c)
  {
    hide Alias;
  }

  lemma {:induction false} AliasSkipped(buf: seq<byte>, pos: nat, t: ColumnType, s: SkipState, rows: nat)
    requires IsAlias(t) && rows != 0 && pos <= |buf|
    ensures SkipBody(buf, pos, t, s, rows) == SkipBody(buf, pos, Alias(t), NoState, rows)
  {
    hide Alias;
  }

  lemma {:induction false} SimpleBody(buf: seq<byte>, pos: nat, t: ColumnType, s: SkipState, rows: nat, c: Column)
    requires IsSimple(t) && rows != 0 && pos <= |buf|
    ensures FitsBody(t, s, rows, c) == FitsLayout(LayoutOf(t), rows, c)
    ensures SkipBody(buf, pos, t, s, rows) == SkipLayout(buf, pos, LayoutOf(t), rows)
  {
    hide LayoutOf, SkipLayout, FitsLayout;
  }

  lemma {:induction false} StatefulBodyComplete(buf: seq<byte>, pos: nat, t: ColumnType, s: SkipState, rows: nat, c: Column)
    requires (t.JSON? || t.Dynamic? || t.Variant?) && rows != 0
    requires FitsBody(t, s, rows, c) && Occurs(buf, pos, Wire(c))
    ensures SkipBody(buf, pos, t, s, rows) == Ok(pos + |Wire(c)|)
    decreases c, TypeSize(t), 1
  {
    hide Occurs, SkipJsonBody, SkipDynamicBody, SkipVariantBody, FitsJsonBody, FitsDynamicBody, FitsVariant;
    if t.JSON? {
      JsonBodyComplete(buf, pos, s.version, s.paths, rows, c);
    } else if t.Dynamic? {
      DynamicBodyComplete(buf, pos, s.dynamic, rows, c);
    } else {
      VariantComplete(buf, pos, t.types, VariantElems(s), rows, c);
    }
  }

  lemma {:induction false} NullableBodyComplete(buf: seq<byte>, pos: nat, t: ColumnType, s: SkipState, rows: nat, c: Column)
    requires t.Nullable? && rows != 0 && FitsBody(t, s, rows, c) && Occurs(buf, pos, Wire(c))
    ensures SkipBody(buf, pos, t, s, rows) == Ok(pos + |Wire(c)|)
    decreases c, TypeSize(t), 1
  {
    hide Occurs, SkipBody, FitsBody;
    NullableBodyParts(buf, pos, t, s, rows, c);
    OccursConcat(buf, pos, c.nulls, Wire(c.inner));
    BodyComplete(buf, pos + rows, t.inner, NullableInner(s), rows, c.inner);
  }

  lemma {:induction false} NullableBodyParts(buf: seq<byte>, pos: nat, t: ColumnType, s: SkipState, rows: nat, c: Column)
    requires t.Nullable? && rows != 0 && FitsBody(t, s, rows, c)
    ensures c.Masked? && |c.nulls| == rows && FitsBody(t.inner, NullableInner(s), rows, c.inner)
    ensures pos + rows <= |buf| ==> SkipBody(buf, pos, t, s, rows) == SkipBody(buf, pos + rows, t.inner, NullableInner(s), rows)
  {
  }

  lemma {:induction false} ArrayBodyComplete(buf: seq<byte>, pos: nat, t: ColumnType, s: SkipState, rows: nat, c: Column)
    requires t.Array? && rows != 0 && FitsBody(t, s, rows, c) && Occurs(buf, pos, Wire(c))
    ensures SkipBody(buf, pos, t, s, rows) == Ok(pos + |Wire(c)|)
    decreases c, TypeSize(t), 1
  {
    hide Occurs, SkipOffsets, OffsetsWire, OffsetsOk, LastOf;
    OccursConcat(buf, pos, OffsetsWire(c.offsets), Wire(c.inner));
    OffsetsComplete(buf, pos, c.offsets, rows);
    BodyComplete(buf, pos + |OffsetsWire(c.offsets)|, t.inner, ArrayInner(s), LastOf(0, c.offsets), c.inner);
  }

  lemma MapBody(buf: seq<byte>, pos: nat, t: ColumnType, s: SkipState, rows: nat)
    requires t.Map? && rows != 0 && pos <= |buf|
    ensures SkipBody(buf, pos, t, s, rows) == SkipMapBody(buf, pos, t.key, t.value, s, rows)
  {
    hide SkipMapBody;
  }

  lemma {:induction false} MapBodyComplete(buf: seq<byte>, pos: nat, t: ColumnType, s: SkipState, rows: nat, c: Column)
    requires t.Map? && rows != 0 && FitsBody(t, s, rows, c) && Occurs(buf, pos, Wire(c))
    ensures SkipMapBody(buf, pos, t.key, t.value, s, rows) == Ok(pos + |Wire(c)|)
    decreases c, TypeSize(t), 1
  {
    hide Occurs, SkipOffsets, OffsetsWire, OffsetsOk, LastOf, SkipBody;
    var k, v := c.inner.first, c.inner.rest;
    OccursConcat(buf, pos, OffsetsWire(c.offsets), Wire(c.inner));
    var start := pos + |OffsetsWire(c.offsets)|;
    OccursConcat(buf, start, Wire(k), Wire(v));
    OffsetsComplete(buf, pos, c.offsets, rows);
    BodyComplete(buf, start, t.key, MapKey(s), LastOf(0, c.offsets), k);
    BodyComplete(buf, start + |Wire(k)|, t.value, MapValue(s), LastOf(0, c.offsets), v);
  }

  lemma {:induction false} ElemsComplete(buf: seq<byte>, pos: nat, ts: seq<ColumnType>, ss: seq<SkipState>, rows: nat, c: Column)
    requires FitsElems(ts, ss, rows, c) && Occurs(buf, pos, Wire(c))
    ensures SkipElems(buf, pos, ts, ss, rows) == Ok(pos + |Wire(c)|)
    decreases c, 0, 0
  {
    hide Occurs, FitsBody, SkipBody;
    if ts != [] {
      OccursConcat(buf, pos, Wire(c.first), Wire(c.rest));
      BodyComplete(buf, pos, ts[0], StateAt(ss, 0), rows, c.first);
      ElemsComplete(buf, pos + |Wire(c.first)|, ts[1..], RestOf(ss), rows, c.rest);
    }
  }

  lemma {:induction false} CountedComplete(buf: seq<byte>, pos: nat, ts: seq<ColumnType>, ss: seq<SkipState>, counts: seq<nat>, c: Column)
    requires |counts| == |ts| && FitsCounted(ts, ss, counts, c) && Occurs(buf, pos, Wire(c))
    ensures SkipCounted(buf, pos, ts, ss, counts) == Ok(pos + |Wire(c)|)
    decreases c, 0, 0
  {
    hide Occurs, FitsBody, SkipBody;
    if ts != [] {
      OccursConcat(buf, pos, Wire(c.first), Wire(c.rest));
      BodyComplete(buf, pos, ts[0], StateAt(ss, 0), counts[0], c.first);
      CountedComplete(buf, pos + |Wire(c.first)|, ts[1..], RestOf(ss), counts[1..], c.rest);
    }
  }

  lemma {:induction false} VariantComplete(buf: seq<byte>, pos: nat, ts: seq<ColumnType>, ss: seq<SkipState>, rows: nat, c: Column)
    requires rows != 0 && FitsVariant(ts, ss, rows, c) && Occurs(buf, pos, Wire(c))
    ensures SkipVariantBody(buf, pos, ts, ss, rows) == Ok(pos + |Wire(c)|)
    decreases c, 0, 1
  {
    hide FitsBody, SkipBody, FitsCounted, SkipCounted, U64At, U64Bytes;
    if ts == [] {
      U64Complete(buf, pos, c.mode);
    } else if c.Variants? {
      OccursConcat(buf, pos, U64Bytes(0), c.discs + Wire(c.subs));
      OccursConcat(buf, pos + 8, c.discs, Wire(c.subs));
      U64Complete(buf, pos, 0);
      CountedComplete(buf, pos + 8 + rows, ts, ss, Counts(c.discs, |ts|), c.subs);
    } else {
      CompactComplete(buf, pos, ts, ss, rows, c);
    }
  }

  lemma BlankAtZero(t: ColumnType, s: SkipState, c: Column)
    ensures FitsBody(t, s, 0, c) <==> c.Blank?
  {
  }

  lemma {:induction false} CompactComplete(buf: seq<byte>, pos: nat, ts: seq<ColumnType>, ss: seq<SkipState>, rows: nat, c: Column)
    requires rows != 0 && ts != [] && c.Compact? && FitsVariant(ts, ss, rows, c) && Occurs(buf, pos, Wire(c))
    ensures SkipVariantBody(buf, pos, ts, ss, rows) == Ok(pos + |Wire(c)|)
    decreases c, 0, 0
  {
    hide Occurs, FitsBody, SkipBody, FitsCounted, SkipCounted, U64At, U64Bytes;
    OccursConcat(buf, pos, U64Bytes(1), U64Bytes(c.disc) + (U64Bytes(c.count) + Wire(c.sub)));
    OccursConcat(buf, pos + 8, U64Bytes(c.disc), U64Bytes(c.count) + Wire(c.sub));
    OccursConcat(buf, pos + 16, U64Bytes(c.count), Wire(c.sub));
    U64Complete(buf, pos, 1);
    U64Complete(buf, pos + 8, c.disc);
    U64Complete(buf, pos + 16, c.count);
    if c.disc < |ts| {
      BlankAtZero(ts[c.disc], StateAt(ss, c.disc), c.sub);
      BodyComplete(buf, pos + 24, ts[c.disc], StateAt(ss, c.disc), c.count, c.sub);
    }
  }

  lemma IndexesComplete(buf: seq<byte>, pos: nat, width: nat, rows: nat, indexes: seq<byte>)
    requires rows < U64_LIMIT && CellsOk(indexes, rows, width)
    requires Occurs(buf, pos, U64Bytes(rows) + indexes)
    ensures DictionaryIndexes(buf, pos, width, rows) == Ok(pos + 8 + |indexes|)
  {
    hide U64Bytes;
    OccursConcat(buf, pos, U64Bytes(rows), indexes);
    U64Complete(buf, pos, rows);
  }

  lemma DictionaryParts(buf: seq<byte>, pos: nat, c: Column)
    requires c.Dictionary? && Occurs(buf, pos, Wire(c))
    ensures Occurs(buf, pos, HeaderWire(c.serial, c.keys)) && Occurs(buf, pos + 24, Wire(c.entries))
    ensures Occurs(buf, pos + 24 + |Wire(c.entries)|, U64Bytes(c.count) + c.indexes)
    ensures |Wire(c)| == 24 + |Wire(c.entries)| + 8 + |c.indexes|
  {
    hide Occurs, U64Bytes, HeaderWire;
    var entries, tail := Wire(c.entries), U64Bytes(c.count) + c.indexes;
    OccursConcat(buf, pos, HeaderWire(c.serial, c.keys), entries + tail);
    OccursConcat(buf, pos + 24, entries, tail);
  }

  lemma DictionaryFrame(buf: seq<byte>, pos: nat, rows: nat, c: Column)
    requires DictionaryOk(rows, c) && Occurs(buf, pos, Wire(c))
    ensures DictionaryHeader(buf, pos) == Ok((IndexWidth(1, c.serial).value, c.keys, pos + 24))
    ensures Occurs(buf, pos + 24, Wire(c.entries))
    ensures DictionaryIndexes(buf, pos + 24 + |Wire(c.entries)|, IndexWidth(1, c.serial).value, rows) == Ok(pos + |Wire(c)|)
  {
    hide Wire, CellsOk, Occurs, U64Bytes, HeaderWire, DictionaryHeader, DictionaryIndexes, IndexWidth;
    DictionaryParts(buf, pos, c);
    HeaderComplete(buf, pos, c.serial, c.keys);
    IndexesComplete(buf, pos + 24 + |Wire(c.entries)|, IndexWidth(1, c.serial).value, rows, c.indexes);
  }

  lemma {:induction false} DictionaryComplete(buf: seq<byte>, pos: nat, t: ColumnType, s: SkipState, rows: nat, c: Column)
    requires DictionaryOk(rows, c) && FitsBody(t, s, c.keys, c.entries) && Occurs(buf, pos, Wire(c))
    ensures SkipDictionary(buf, pos, t, s, rows) == Ok(pos + |Wire(c)|)
    decreases c, 0, 1
  {
    hide Wire, DictionaryOk, Occurs, FitsBody, SkipBody, DictionaryHeader, DictionaryIndexes, IndexWidth;
    DictionaryFrame(buf, pos, rows, c);
    BodyComplete(buf, pos + 24, t, s, c.keys, c.entries);
  }

  lemma {:induction false} DynamicBodyComplete(buf: seq<byte>, pos: nat, d: DynState, rows: nat, c: Column)
    requires FitsDynamicBody(d, rows, c) && Occurs(buf, pos, Wire(c))
    ensures SkipDynamicBody(buf, pos, d, rows) == Ok(pos + |Wire(c)|)
    decreases c, 0, 1
  {
    hide Occurs, ReadDiscs, FitsDiscs, SkipCountedNames, FitsCountedNames, Counts;
    if !(rows == 0 || d.names == [] || d.version == 0) {
      var discs :| FitsDiscs(d.version, |d.names|, rows, c.discs, discs)
                   && FitsCountedNames(d.names, d.states, Counts(discs, |d.names|), c.subs);
      OccursConcat(buf, pos, c.discs, Wire(c.subs));
      DiscsComplete(buf, pos, d.version, |d.names|, rows, c.discs, discs);
      CountedNamesComplete(buf, pos + |c.discs|, d.names, d.states, Counts(discs, |d.names|), c.subs);
    }
  }

  lemma {:induction false} CountedNamesComplete(buf: seq<byte>, pos: nat, names: seq<string>, ss: seq<SkipState>, counts: seq<nat>, c: Column)
    requires |counts| == |names| && FitsCountedNames(names, ss, counts, c) && Occurs(buf, pos, Wire(c))
    ensures SkipCountedNames(buf, pos, names, ss, counts) == Ok(pos + |Wire(c)|)
    decreases c, 0, 0
  {
    hide Occurs, FitsBody, SkipBody, ParseType;
    if names != [] {
      OccursConcat(buf, pos, Wire(c.first), Wire(c.rest));
      if counts[0] != 0 {
        BodyComplete(buf, pos, ParseType(names[0]).value, StateAt(ss, 0), counts[0], c.first);
      }
      CountedNamesComplete(buf, pos + |Wire(c.first)|, names[1..], RestOf(ss), counts[1..], c.rest);
    }
  }

  lemma {:induction false} JsonBodyComplete(buf: seq<byte>, pos: nat, version: nat, ds: seq<DynState>, rows: nat, c: Column)
    requires FitsJsonBody(version, ds, rows, c) && Occurs(buf, pos, Wire(c))
    ensures SkipJsonBody(buf, pos, version, ds, rows) == Ok(pos + |Wire(c)|)
    decreases c, 0, 1
  {
    hide Occurs, FitsDynamicBodies, SkipDynamicBodies, StrsOk, StrsWire, SkipStrings;
    if version == 1 || version == 4 {
      StringsComplete(buf, pos, c.items);
    } else {
      OccursConcat(buf, pos, Wire(c.bodies), c.trailer);
      DynamicBodiesComplete(buf, pos, ds, rows, c.bodies);
    }
  }

  lemma {:induction false} DynamicBodiesComplete(buf: seq<byte>, pos: nat, ds: seq<DynState>, rows: nat, c: Column)
    requires FitsDynamicBodies(ds, rows, c) && Occurs(buf, pos, Wire(c))
    ensures SkipDynamicBodies(buf, pos, ds, rows) == Ok(pos + |Wire(c)|)
    decreases c, 0, 0
  {
    hide Occurs, FitsDynamicBody, SkipDynamicBody;
    if ds != [] {
      OccursConcat(buf, pos, Wire(c.first), Wire(c.rest));
      DynamicBodyComplete(buf, pos, ds[0], rows, c.first);
      DynamicBodiesComplete(buf, pos + |Wire(c.first)|, ds[1..], rows, c.rest);
    }
  }

  // --------------------------------------------------------------------------
  // Whole columns
  // --------------------------------------------------------------------------

  /** A well-formed column is skipped exactly to its end, independently of what
      stands before and behind it. */
  lemma {:induction false} DataComplete(buf: seq<byte>, pos: nat, t: ColumnType, rows: nat, c: Column)
    requires FitsData(t, rows, c) && Occurs(buf, pos, Wire(c))
    ensures SkipData(buf, pos, t, rows) == Ok(pos + |Wire(c)|)
    decreases c, TypeSize(t), 2
  {
    hide Occurs, SkipJson, SkipOffsets, SkipMapData, SkipDataElems, SkipDictionary, SkipVariantBody, SkipDynamicBody, SkipPrefixes, SkipDynamicState, SkipPoint, SkipLayout, LayoutOf, FitsDataElems, DictionaryOk, FitsVariant, FitsDynamicBody, FitsDynamic, FitsPrefixes, FitsPoint, FitsLayout, OffsetsOk, OffsetsWire, LastOf, StrsOk, StrsWire, SkipStrings, U64At, U64Bytes, PrefixWire;
    if rows != 0 {
      if t.JSON? {
        JsonDataComplete(buf, pos, rows, c);
      } else if t.Nullable? {
        OccursConcat(buf, pos, c.nulls, Wire(c.inner));
        DataComplete(buf, pos + rows, t.inner, rows, c.inner);
      } else if t.Array? {
        ArrayDataComplete(buf, pos, t, rows, c);
      } else if t.Map? {
        MapDataComplete(buf, pos, t, rows, c);
      } else if t.Tuple? {
        DataElemsComplete(buf, pos, t.elems, rows, c);
      } else if t.Point? {
        PointComplete(buf, pos, rows, c);
      } else if IsAlias(t) {
        DataComplete(buf, pos, Alias(t), rows, c);
      } else if t.LowCardinality? {
        DictionaryComplete(buf, pos, t.inner, NoState, rows, c);
      } else if t.Variant? {
        VariantDataComplete(buf, pos, t, rows, c);
      } else if t.Dynamic? {
        DynamicDataComplete(buf, pos, t, rows, c);
      } else {
        LayoutComplete(buf, pos, LayoutOf(t), rows, c);
      }
    }
  }

  lemma VariantDataComplete(buf: seq<byte>, pos: nat, t: ColumnType, rows: nat, c: Column)
    requires t.Variant? && rows != 0 && FitsData(t, rows, c) && Occurs(buf, pos, Wire(c))
    ensures SkipData(buf, pos, t, rows) == Ok(pos + |Wire(c)|)
  {
    hide Occurs, PrefixWire, FitsPrefixes, FitsVariant, SkipPrefixes, SkipVariantBody, SkipLayout, LayoutOf;
    var ss :| FitsPrefixes(t.types, c.prefix, ss) && FitsVariant(t.types, ss, rows, c.body);
    OccursConcat(buf, pos, PrefixWire(c.prefix), Wire(c.body));
    PrefixesComplete(buf, pos, t.types, c.prefix, ss);
    VariantComplete(buf, pos + |PrefixWire(c.prefix)|, t.types, ss, rows, c.body);
  }

  lemma DynamicDataComplete(buf: seq<byte>, pos: nat, t: ColumnType, rows: nat, c: Column)
    requires t.Dynamic? && rows != 0 && FitsData(t, rows, c) && Occurs(buf, pos, Wire(c))
    ensures SkipData(buf, pos, t, rows) == Ok(pos + |Wire(c)|)
  {
    hide Occurs, PrefixWire, FitsDynamic, FitsDynamicBody, SkipDynamicState, SkipDynamicBody, SkipLayout, LayoutOf;
    var d :| FitsDynamic(c.prefix, d) && FitsDynamicBody(d, rows, c.body);
    OccursConcat(buf, pos, PrefixWire(c.prefix), Wire(c.body));
    DynamicStateComplete(buf, pos, c.prefix, d);
    DynamicBodyComplete(buf, pos + |PrefixWire(c.prefix)|, d, rows, c.body);
  }

  lemma JsonDataComplete(buf: seq<byte>, pos: nat, rows: nat, c: Column)
    requires rows != 0 && FitsData(JSON, rows, c) && Occurs(buf, pos, Wire(c))
    ensures SkipJson(buf, pos, rows) == Ok(pos + |Wire(c)|)
  {
    hide StrsWire, U64Bytes, StrsOk, SkipStrings, U64At;
    OccursConcat(buf, pos, U64Bytes(c.version), StrsWire(c.items));
    U64Complete(buf, pos, c.version);
    StringsComplete(buf, pos + 8, c.items);
  }

  lemma {:induction false} ArrayDataComplete(buf: seq<byte>, pos: nat, t: ColumnType, rows: nat, c: Column)
    requires t.Array? && rows != 0 && FitsData(t, rows, c) && Occurs(buf, pos, Wire(c))
    ensures SkipData(buf, pos, t, rows) == Ok(pos + |Wire(c)|)
    decreases c, TypeSize(t), 1
  {
    hide Occurs, SkipOffsets, OffsetsWire, OffsetsOk, LastOf, SkipData, FitsData;
    ArrayDataFits(t, rows, c);
    OccursConcat(buf, pos, OffsetsWire(c.offsets), Wire(c.inner));
    OffsetsComplete(buf, pos, c.offsets, rows);
    DataComplete(buf, pos + |OffsetsWire(c.offsets)|, t.inner, LastOf(0, c.offsets), c.inner);
    ArrayDataSkipped(buf, pos, t, rows);
  }

  lemma {:induction false} ArrayDataFits(t: ColumnType, rows: nat, c: Column)
    requires t.Array? && rows != 0 && FitsData(t, rows, c)
    ensures c.Nested? && OffsetsOk(c.offsets, rows) && FitsData(t.inner, LastOf(0, c.offsets), c.inner)
  {
    hide OffsetsOk, LastOf;
  }

  lemma {:induction false} ArrayDataSkipped(buf: seq<byte>, pos: nat, t: ColumnType, rows: nat)
    requires pos <= |buf| && t.Array? && rows != 0
    ensures var o := SkipOffsets(buf, pos, rows);
            SkipData(buf, pos, t, rows) == if o.Err? then Err(o.error) else SkipData(buf, o.value.1, t.inner, o.value.0)
  {
    hide SkipOffsets;
  }

  lemma {:induction false} MapDataComplete(buf: seq<byte>, pos: nat, t: ColumnType, rows: nat, c: Column)
    requires t.Map? && rows != 0 && FitsData(t, rows, c) && Occurs(buf, pos, Wire(c))
    ensures SkipMapData(buf, pos, t.key, t.value, rows) == Ok(pos + |Wire(c)|)
    decreases c, TypeSize(t), 1
  {
    hide Occurs, SkipOffsets, OffsetsWire, OffsetsOk, LastOf, SkipData;
    var k, v := c.inner.first, c.inner.rest;
    OccursConcat(buf, pos, OffsetsWire(c.offsets), Wire(c.inner));
    var start := pos + |OffsetsWire(c.offsets)|;
    OccursConcat(buf, start, Wire(k), Wire(v));
    OffsetsComplete(buf, pos, c.offsets, rows);
    DataComplete(buf, start, t.key, LastOf(0, c.offsets), k);
    DataComplete(buf, start + |Wire(k)|, t.value, LastOf(0, c.offsets), v);
  }

  lemma {:induction false} DataElemsComplete(buf: seq<byte>, pos: nat, ts: seq<ColumnType>, rows: nat, c: Column)
    requires FitsDataElems(ts, rows, c) && Occurs(buf, pos, Wire(c))
    ensures SkipDataElems(buf, pos, ts, rows) == Ok(pos + |Wire(c)|)
    decreases c, 0, 0
  {
    hide Occurs, FitsData, SkipData;
    if ts != [] {
      OccursConcat(buf, pos, Wire(c.first), Wire(c.rest));
      DataComplete(buf, pos, ts[0], rows, c.first);
      DataElemsComplete(buf, pos + |Wire(c.first)|, ts[1..], rows, c.rest);
    }
  }
}
