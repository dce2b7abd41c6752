/** Whatever the skipper accepts is a well-formed column: from a successful
    skip the written parts are recovered, and they fill exactly the bytes that
    were skipped. */
module FramingSound {
  import opened Bytes
  import opened Limits
  import opened Varint
  import Utf8
  import opened ColumnTypes
  import opened TypeText
  import opened SkipSpec
  import opened WireFormat
  import FramingComplete

  // --------------------------------------------------------------------------
  // Flat pieces
  // --------------------------------------------------------------------------

  lemma U64Sound(buf: seq<byte>, pos: nat)
    requires U64At(buf, pos).Ok?
    ensures var (v, end) := U64At(buf, pos).value;
            v < U64_LIMIT && Occurs(buf, pos, U64Bytes(v))
  {
    U64BytesOf(buf[pos..pos + 8]);
  }

  lemma OccursSlice(buf: seq<byte>, pos: nat, end: nat)
    requires pos <= end <= |buf|
    ensures Occurs(buf, pos, buf[pos..end])
  {
  }

  lemma {:induction false} StringsSound(buf: seq<byte>, pos: nat, rows: nat) returns (items: seq<Str>)
    requires pos <= |buf| && SkipStrings(buf, pos, rows).Ok?
    ensures |items| == rows && StrsOk(items)
    ensures Occurs(buf, pos, StrsWire(items)) && SkipStrings(buf, pos, rows).value == pos + |StrsWire(items)|
    decreases rows
  {
    hide VarintAt, IsVarint, GroupValue;
    if rows == 0 {
      items := [];
    } else {
      var (n, p) := VarintAt(buf, pos).value;
      VarintRead(buf, pos);
      var s := Str(buf[pos..p], buf[p..p + n]);
      var rest := StringsSound(buf, p + n, rows - 1);
      items := [s] + rest;
      assert items[1..] == rest;
      OccursConcat(buf, p, s.body, StrsWire(rest));
      OccursConcat(buf, pos, s.len, s.body + StrsWire(rest));
    }
  }

  lemma NoNames()
    ensures NamesOk([], [])
  {
  }

  lemma NamesCons(s: Str, rest: seq<Str>, name: string, names: seq<string>)
    requires StrOk(s) && Utf8.Decode(s.body) == Some(name) && NamesOk(rest, names)
    ensures NamesOk([s] + rest, [name] + names)
  {
    hide StrOk, Utf8.Decode;
    var items := [s] + rest;
    assert forall i :: 1 <= i < |items| ==> items[i] == rest[i - 1];
  }

  lemma {:induction false} NamesSound(buf: seq<byte>, pos: nat, count: nat) returns (items: seq<Str>)
    requires pos <= |buf| && ReadNames(buf, pos, count).Ok?
    ensures |items| == count && NamesOk(items, ReadNames(buf, pos, count).value.0)
    ensures Occurs(buf, pos, StrsWire(items)) && ReadNames(buf, pos, count).value.1 == pos + |StrsWire(items)|
    decreases count
  {
    hide VarintAt, IsVarint, GroupValue, Utf8.Decode, NamesOk;
    if count == 0 {
      items := [];
      NoNames();
    } else {
      var (n, p) := VarintAt(buf, pos).value;
      VarintRead(buf, pos);
      var s := Str(buf[pos..p], buf[p..p + n]);
      var rest := NamesSound(buf, p + n, count - 1);
      items := [s] + rest;
      assert items[1..] == rest;
      NamesCons(s, rest, Utf8.Decode(s.body).value, ReadNames(buf, p + n, count - 1).value.0);
      OccursConcat(buf, p, s.body, StrsWire(rest));
      OccursConcat(buf, pos, s.len, s.body + StrsWire(rest));
    }
  }

  lemma {:induction false} OffsetsFromSound(buf: seq<byte>, pos: nat, rows: nat, prev: nat) returns (offsets: seq<nat>)
    requires pos + 8 * rows <= |buf| && OffsetsFrom(buf, pos, rows, prev).Ok?
    ensures |offsets| == rows && Ascending(prev, offsets)
    ensures Occurs(buf, pos, OffsetsWire(offsets)) && OffsetsFrom(buf, pos, rows, prev).value == LastOf(prev, offsets)
    decreases rows
  {
    if rows == 0 {
      offsets := [];
    } else {
      U64Sound(buf, pos);
      var v := LeValue(buf[pos..pos + 8]);
      var rest := OffsetsFromSound(buf, pos + 8, rows - 1, v);
      offsets := [v] + rest;
      assert offsets[1..] == rest;
      OccursConcat(buf, pos, U64Bytes(v), OffsetsWire(rest));
    }
  }

  lemma OffsetsSound(buf: seq<byte>, pos: nat, rows: nat) returns (offsets: seq<nat>)
    requires SkipOffsets(buf, pos, rows).Ok?
    ensures OffsetsOk(offsets, rows) && Occurs(buf, pos, OffsetsWire(offsets))
    ensures SkipOffsets(buf, pos, rows).value == (LastOf(0, offsets), pos + |OffsetsWire(offsets)|)
  {
    offsets := OffsetsFromSound(buf, pos, rows, 0);
  }

  lemma LayoutSound(buf: seq<byte>, pos: nat, layout: Layout, rows: nat) returns (c: Column)
    requires pos <= |buf| && SkipLayout(buf, pos, layout, rows).Ok?
    ensures FitsLayout(layout, rows, c) && Occurs(buf, pos, Wire(c))
    ensures SkipLayout(buf, pos, layout, rows).value == pos + |Wire(c)|
  {
    hide U64Bytes;
    if layout.Texts? {
      var items := StringsSound(buf, pos, rows);
      c := Strings(items);
    } else {
      c := Flat(buf[pos..SkipLayout(buf, pos, layout, rows).value]);
    }
  }

  lemma PointSound(buf: seq<byte>, pos: nat, rows: nat) returns (c: Column)
    requires pos <= |buf| && SkipPoint(buf, pos, rows).Ok?
    ensures FitsPoint(rows, c) && Occurs(buf, pos, Wire(c))
    ensures SkipPoint(buf, pos, rows).value == pos + |Wire(c)|
  {
    hide FitsLayout, SkipLayout;
    var x := LayoutSound(buf, pos, Cells(8), rows);
    var y := LayoutSound(buf, pos + |Wire(x)|, Cells(8), rows);
    c := Join(x, y);
    OccursConcat(buf, pos, Wire(x), Wire(y));
  }

  // --------------------------------------------------------------------------
  // State prefixes
  // --------------------------------------------------------------------------

  lemma NameListSound(buf: seq<byte>, pos: nat) returns (count: seq<byte>, items: seq<Str>)
    requires pos <= |buf| && ReadNameList(buf, pos).Ok?
    ensures CountOk(count, |items|) && NamesOk(items, ReadNameList(buf, pos).value.0)
    ensures Occurs(buf, pos, count + StrsWire(items))
    ensures ReadNameList(buf, pos).value.1 == pos + |count + StrsWire(items)|
  {
    hide VarintAt, IsVarint, GroupValue, NamesOk, StrsWire, ReadNames;
    var (n, p) := VarintAt(buf, pos).value;
    VarintRead(buf, pos);
    count := buf[pos..p];
    items := NamesSound(buf, p, n);
    OccursConcat(buf, pos, count, StrsWire(items));
  }

  /** The names part of a Dynamic prefix, with the parts a version does not
      write left empty. */
  lemma DynamicNamesSound(buf: seq<byte>, pos: nat, version: nat)
    returns (maxTypes: seq<byte>, count: seq<byte>, items: seq<Str>, variantVersion: nat)
    requires pos <= |buf| && ReadDynamicNames(buf, pos, version).Ok?
    ensures version <= 3 && variantVersion < U64_LIMIT
    ensures NamesOk(items, ReadDynamicNames(buf, pos, version).value.0)
    ensures version == 0 ==> items == []
    ensures version != 0 ==> CountOk(count, |items|)
    ensures version == 1 ==> IsVarint(maxTypes)
    ensures Occurs(buf, pos, NamesWire(version, maxTypes, count, items, variantVersion))
    ensures ReadDynamicNames(buf, pos, version).value.1
         == pos + |NamesWire(version, maxTypes, count, items, variantVersion)|
  {
    hide VarintAt, IsVarint, GroupValue, StrsWire, ReadNameList, CountOk, U64Bytes;
    maxTypes, count, items, variantVersion := [], [], [], 0;
    if version == 1 {
      var (_, p) := VarintAt(buf, pos).value;
      VarintRead(buf, pos);
      maxTypes := buf[pos..p];
      count, items := NameListSound(buf, p);
      var q := p + |count + StrsWire(items)|;
      U64Sound(buf, q);
      variantVersion := U64At(buf, q).value.0;
      OccursConcat(buf, p, count + StrsWire(items), U64Bytes(variantVersion));
      OccursConcat(buf, pos, maxTypes, (count + StrsWire(items)) + U64Bytes(variantVersion));
    } else if version != 0 {
      count, items := NameListSound(buf, pos);
    }
  }

  lemma {:induction false} PrefixSound(buf: seq<byte>, pos: nat, t: ColumnType) returns (p: Prefix)
    requires pos <= |buf| && SkipPrefix(buf, pos, t).Ok?
    ensures FitsPrefix(t, p, SkipPrefix(buf, pos, t).value.0)
    ensures Occurs(buf, pos, PrefixWire(p)) && SkipPrefix(buf, pos, t).value.1 == pos + |PrefixWire(p)|
    decreases |buf| - pos, TypeSize(t), 1
  {
    hide Occurs, FitsDynamic, FitsJson, FitsPrefixes, SkipDynamicState, SkipJsonState, SkipPrefixes;
    if t.Nullable? || t.Array? || t.LowCardinality? {
      var i := PrefixSound(buf, pos, t.inner);
      p := Sub(i);
    } else if t.Map? {
      p := MapPrefixSound(buf, pos, t);
    } else if t.Tuple? {
      p := PrefixesSound(buf, pos, t.elems);
    } else if t.Variant? {
      p := PrefixesSound(buf, pos, t.types);
    } else if t.Dynamic? {
      p := DynamicStateSound(buf, pos);
    } else if t.JSON? {
      p := JsonStateSound(buf, pos);
    } else {
      p := NoPrefix;
      EmptyOccurs(buf, pos);
    }
  }

  lemma EmptyOccurs(buf: seq<byte>, pos: nat)
    requires pos <= |buf|
    ensures Occurs(buf, pos, [])
  {
  }

  lemma {:induction false} MapPrefixSound(buf: seq<byte>, pos: nat, t: ColumnType) returns (p: Prefix)
    requires pos <= |buf| && t.Map? && SkipPrefix(buf, pos, t).Ok?
    ensures FitsPrefix(t, p, SkipPrefix(buf, pos, t).value.0)
    ensures Occurs(buf, pos, PrefixWire(p)) && SkipPrefix(buf, pos, t).value.1 == pos + |PrefixWire(p)|
    decreases |buf| - pos, TypeSize(t), 0
  {
    hide Occurs, FitsDynamic, FitsJson, FitsPrefixes, SkipDynamicState, SkipJsonState, SkipPrefixes;
    var k := PrefixSound(buf, pos, t.key);
    var v := PrefixSound(buf, pos + |PrefixWire(k)|, t.value);
    p := Cons(k, v);
    OccursConcat(buf, pos, PrefixWire(k), PrefixWire(v));
  }

  lemma {:induction false} PrefixesSound(buf: seq<byte>, pos: nat, ts: seq<ColumnType>) returns (p: Prefix)
    requires pos <= |buf| && SkipPrefixes(buf, pos, ts).Ok?
    ensures FitsPrefixes(ts, p, SkipPrefixes(buf, pos, ts).value.0)
    ensures Occurs(buf, pos, PrefixWire(p)) && SkipPrefixes(buf, pos, ts).value.1 == pos + |PrefixWire(p)|
    decreases |buf| - pos, TypesSize(ts), 0
  {
    hide Occurs, FitsPrefix, SkipPrefix;
    if ts == [] {
      p := NoPrefix;
      EmptyOccurs(buf, pos);
    } else {
      var first := PrefixSound(buf, pos, ts[0]);
      var rest := PrefixesSound(buf, pos + |PrefixWire(first)|, ts[1..]);
      p := Cons(first, rest);
      OccursConcat(buf, pos, PrefixWire(first), PrefixWire(rest));
      var ss := SkipPrefixes(buf, pos, ts).value.0;
      assert ss[1..] == SkipPrefixes(buf, pos + |PrefixWire(first)|, ts[1..]).value.0;
    }
  }

  lemma {:induction false} DynamicStateSound(buf: seq<byte>, pos: nat) returns (p: Prefix)
    requires pos <= |buf| && SkipDynamicState(buf, pos).Ok?
    ensures FitsDynamic(p, SkipDynamicState(buf, pos).value.0)
    ensures Occurs(buf, pos, PrefixWire(p)) && SkipDynamicState(buf, pos).value.1 == pos + |PrefixWire(p)|
    decreases |buf| - pos, 0, 0
  {
    hide Occurs, NamesWire, NamesOk, ReadDynamicNames, SkipNamed, FitsNamed, CountOk, IsVarint, U64Bytes;
    U64Sound(buf, pos);
    var version := U64At(buf, pos).value.0;
    var maxTypes, count, items, variantVersion := DynamicNamesSound(buf, pos + 8, version);
    var names := NamesWire(version, maxTypes, count, items, variantVersion);
    var subs := NamedSound(buf, pos + 8 + |names|, ReadDynamicNames(buf, pos + 8, version).value.0);
    p := DynPrefix(version, maxTypes, count, items, variantVersion, subs);
    OccursConcat(buf, pos + 8, names, PrefixWire(subs));
    OccursConcat(buf, pos, U64Bytes(version), names + PrefixWire(subs));
  }

  lemma {:induction false} NamedSound(buf: seq<byte>, pos: nat, names: seq<string>) returns (p: Prefix)
    requires pos <= |buf| && SkipNamed(buf, pos, names).Ok?
    ensures FitsNamed(names, p, SkipNamed(buf, pos, names).value.0)
    ensures Occurs(buf, pos, PrefixWire(p)) && SkipNamed(buf, pos, names).value.1 == pos + |PrefixWire(p)|
    decreases |buf| - pos + 1, |names|, 0
  {
    hide Occurs, FitsPrefix, SkipPrefix, ParseType;
    if names == [] {
      p := NoPrefix;
      EmptyOccurs(buf, pos);
    } else {
      NamedStep(buf, pos, names);
      var first := PrefixSound(buf, pos, ParseType(names[0]).value);
      var rest := NamedSound(buf, pos + |PrefixWire(first)|, names[1..]);
      p := Cons(first, rest);
      OccursConcat(buf, pos, PrefixWire(first), PrefixWire(rest));
    }
  }

  lemma {:induction false} NamedStep(buf: seq<byte>, pos: nat, names: seq<string>)
    requires pos <= |buf| && names != [] && SkipNamed(buf, pos, names).Ok?
    ensures ParseType(names[0]).Ok? && SkipPrefix(buf, pos, ParseType(names[0]).value).Ok?
    ensures var (s, p) := SkipPrefix(buf, pos, ParseType(names[0]).value).value;
            var rest := SkipNamed(buf, p, names[1..]);
            var all := SkipNamed(buf, pos, names).value;
            rest.Ok? && all.1 == rest.value.1 && all.0 != [] && all.0[0] == s && all.0[1..] == rest.value.0
  {
    hide SkipPrefix, ParseType;
  }

  lemma {:induction false} JsonStateSound(buf: seq<byte>, pos: nat) returns (p: Prefix)
    requires pos <= |buf| && SkipJsonState(buf, pos).Ok?
    ensures var (s, end) := SkipJsonState(buf, pos).value;
            && s.JsonState? && FitsJson(p, s.version, s.paths)
            && Occurs(buf, pos, PrefixWire(p)) && end == pos + |PrefixWire(p)|
    decreases |buf| - pos, 0, 0
  {
    hide VarintAt, IsVarint, GroupValue, Occurs, U64Bytes, SkipJsonPaths, StrsWire, FitsDynamics, StrsOk, CountOk;
    U64Sound(buf, pos);
    var version := U64At(buf, pos).value.0;
    var maxPaths, count, paths, subs := [], [], [], NoPrefix;
    if version == 3 {
      count, paths, subs := JsonPathsSound(buf, pos + 8);
    } else if version == 0 {
      var (_, q) := VarintAt(buf, pos + 8).value;
      VarintRead(buf, pos + 8);
      maxPaths := buf[pos + 8..q];
      count, paths, subs := JsonPathsSound(buf, q);
      OccursConcat(buf, pos + 8, maxPaths, count + StrsWire(paths));
    } else {
      EmptyOccurs(buf, pos + 8);
    }
    p := JsonPrefix(version, maxPaths, count, paths, subs);
    OccursConcat(buf, pos + 8, PathsWire(version, maxPaths, count, paths), PrefixWire(subs));
    OccursConcat(buf, pos, U64Bytes(version), PathsWire(version, maxPaths, count, paths) + PrefixWire(subs));
  }

  lemma {:induction false} JsonPathsSound(buf: seq<byte>, pos: nat)
    returns (count: seq<byte>, paths: seq<Str>, subs: Prefix)
    requires pos <= |buf| && SkipJsonPaths(buf, pos).Ok?
    ensures CountOk(count, |paths|) && StrsOk(paths) && |SkipJsonPaths(buf, pos).value.0| == |paths|
    ensures FitsDynamics(subs, SkipJsonPaths(buf, pos).value.0)
    ensures Occurs(buf, pos, count + StrsWire(paths))
    ensures Occurs(buf, pos + |count + StrsWire(paths)|, PrefixWire(subs))
    ensures SkipJsonPaths(buf, pos).value.1 == pos + |count + StrsWire(paths)| + |PrefixWire(subs)|
    decreases |buf| - pos + 2, 0, 0
  {
    hide VarintAt, IsVarint, GroupValue, Occurs, StrsWire, FitsDynamics, StrsOk, SkipStrings, SkipDynamicStates;
    var (n, p) := VarintAt(buf, pos).value;
    VarintRead(buf, pos);
    count := buf[pos..p];
    paths := StringsSound(buf, p, n);
    OccursConcat(buf, pos, count, StrsWire(paths));
    subs := DynamicStatesSound(buf, p + |StrsWire(paths)|, n);
  }

  lemma {:induction false} DynamicStatesSound(buf: seq<byte>, pos: nat, count: nat) returns (p: Prefix)
    requires pos <= |buf| && SkipDynamicStates(buf, pos, count).Ok?
    ensures |SkipDynamicStates(buf, pos, count).value.0| == count
    ensures FitsDynamics(p, SkipDynamicStates(buf, pos, count).value.0)
    ensures Occurs(buf, pos, PrefixWire(p)) && SkipDynamicStates(buf, pos, count).value.1 == pos + |PrefixWire(p)|
    decreases |buf| - pos + 1, count, 0
  {
    hide Occurs, FitsDynamic, SkipDynamicState;
    if count == 0 {
      p := NoPrefix;
      EmptyOccurs(buf, pos);
    } else {
      var first := DynamicStateSound(buf, pos);
      var rest := DynamicStatesSound(buf, pos + |PrefixWire(first)|, count - 1);
      p := Cons(first, rest);
      OccursConcat(buf, pos, PrefixWire(first), PrefixWire(rest));
      var ds := SkipDynamicStates(buf, pos, count).value.0;
      assert ds[1..] == SkipDynamicStates(buf, pos + |PrefixWire(first)|, count - 1).value.0;
    }
  }

  // --------------------------------------------------------------------------
  // Bodies
  // --------------------------------------------------------------------------

  lemma {:induction false} BodySound(buf: seq<byte>, pos: nat, t: ColumnType, s: SkipState, rows: nat) returns (c: Column)
    requires pos <= |buf| && SkipBody(buf, pos, t, s, rows).Ok?
    ensures FitsBody(t, s, rows, c) && Occurs(buf, pos, Wire(c))
    ensures SkipBody(buf, pos, t, s, rows).value == pos + |Wire(c)|
    decreases StateSize(s), TypeSize(t), 1
  {
    hide Occurs, SkipOffsets, SkipMapBody, SkipElems, SkipDictionary, SkipJsonBody, SkipDynamicBody, SkipVariantBody, SkipPoint, SkipLayout, LayoutOf, FitsElems, DictionaryOk, FitsJsonBody, FitsDynamicBody, FitsVariant, FitsPoint, FitsLayout, OffsetsOk, OffsetsWire, LastOf;
    if rows == 0 {
      c := Blank;
      EmptyOccurs(buf, pos);
    } else if t.Nullable? {
      c := NullableBodySound(buf, pos, t, s, rows);
    } else if t.Array? {
      c := ArrayBodySound(buf, pos, t, s, rows);
    } else if t.Map? {
      c := MapBodySound(buf, pos, t, s, rows);
    } else if t.Tuple? {
      c := ElemsSound(buf, pos, t.elems, TupleElems(s), rows);
    } else if t.LowCardinality? {
      c := DictionarySound(buf, pos, t.inner, LowCardinalityInner(s), rows);
    } else if t.JSON? || t.Dynamic? || t.Variant? {
      c := StatefulBodySound(buf, pos, t, s, rows);
    } else {
      c := LeafBodySound(buf, pos, t, s, rows);
    }
  }

  lemma {:induction false} LeafBodySound(buf: seq<byte>, pos: nat, t: ColumnType, s: SkipState, rows: nat) returns (c: Column)
    requires pos <= |buf| && (t.Point? || IsAlias(t) || IsSimple(t)) && rows != 0 && SkipBody(buf, pos, t, s, rows).Ok?
    ensures FitsBody(t, s, rows, c) && Occurs(buf, pos, Wire(c))
    ensures SkipBody(buf, pos, t, s, rows).value == pos + |Wire(c)|
    decreases StateSize(s), TypeSize(t), 0
  {
    hide Occurs, SkipPoint, SkipLayout, LayoutOf, FitsPoint, FitsLayout, SkipBody, FitsBody, Alias, IsSimple;
    if t.Point? {
      FramingComplete.PointBody(buf, pos, s, rows, Blank);
      c := PointSound(buf, pos, rows);
      FramingComplete.PointBody(buf, pos, s, rows, c);
    } else if IsAlias(t) {
      FramingComplete.AliasBody(buf, pos, t, s, rows, Blank);
      c := BodySound(buf, pos, Alias(t), NoState, rows);
      FramingComplete.AliasBody(buf, pos, t, s, rows, c);
    } else {
      FramingComplete.SimpleBody(buf, pos, t, s, rows, Blank);
      c := LayoutSound(buf, pos, LayoutOf(t), rows);
      FramingComplete.SimpleBody(buf, pos, t, s, rows, c);
    }
  }

  lemma {:induction false} NullableBodySound(buf: seq<byte>, pos: nat, t: ColumnType, s: SkipState, rows: nat) returns (c: Column)
    requires pos <= |buf| && t.Nullable? && rows != 0 && SkipBody(buf, pos, t, s, rows).Ok?
    ensures FitsBody(t, s, rows, c) && Occurs(buf, pos, Wire(c))
    ensures SkipBody(buf, pos, t, s, rows).value == pos + |Wire(c)|
    decreases StateSize(s), TypeSize(t), 0
  {
    hide Occurs, SkipBody, FitsBody;
    NullableBodySkipped(buf, pos, t, s, rows);
    var inner := BodySound(buf, pos + rows, t.inner, NullableInner(s), rows);
    c := Masked(buf[pos..pos + rows], inner);
    NullableBodyFits(t, s, rows, c);
    OccursSlice(buf, pos, pos + rows);
    OccursConcat(buf, pos, c.nulls, Wire(inner));
  }

  lemma {:induction false} NullableBodySkipped(buf: seq<byte>, pos: nat, t: ColumnType, s: SkipState, rows: nat)
    requires pos <= |buf| && t.Nullable? && rows != 0 && SkipBody(buf, pos, t, s, rows).Ok?
    ensures pos + rows <= |buf| && SkipBody(buf, pos, t, s, rows) == SkipBody(buf, pos + rows, t.inner, NullableInner(s), rows)
  {
  }

  lemma {:induction false} NullableBodyFits(t: ColumnType, s: SkipState, rows: nat, c: Column)
    requires t.Nullable? && rows != 0 && c.Masked? && |c.nulls| == rows && FitsBody(t.inner, NullableInner(s), rows, c.inner)
    ensures FitsBody(t, s, rows, c)
  {
  }

  lemma {:induction false} ArrayBodySound(buf: seq<byte>, pos: nat, t: ColumnType, s: SkipState, rows: nat) returns (c: Column)
    requires pos <= |buf| && t.Array? && rows != 0 && SkipBody(buf, pos, t, s, rows).Ok?
    ensures FitsBody(t, s, rows, c) && Occurs(buf, pos, Wire(c))
    ensures SkipBody(buf, pos, t, s, rows).value == pos + |Wire(c)|
    decreases StateSize(s), TypeSize(t), 0
  {
    hide Occurs, OffsetsOk, SkipOffsets, OffsetsWire, LastOf, SkipBody, FitsBody;
    ArrayBodySkipped(buf, pos, t, s, rows);
    var offsets := OffsetsSound(buf, pos, rows);
    var inner := BodySound(buf, pos + |OffsetsWire(offsets)|, t.inner, ArrayInner(s), LastOf(0, offsets));
    c := Nested(offsets, inner);
    ArrayBodyFits(t, s, rows, c);
    OccursConcat(buf, pos, OffsetsWire(offsets), Wire(inner));
  }

  lemma {:induction false} ArrayBodySkipped(buf: seq<byte>, pos: nat, t: ColumnType, s: SkipState, rows: nat)
    requires pos <= |buf| && t.Array? && rows != 0 && SkipBody(buf, pos, t, s, rows).Ok?
    ensures SkipOffsets(buf, pos, rows).Ok?
    ensures var (total, p) := SkipOffsets(buf, pos, rows).value;
            SkipBody(buf, pos, t, s, rows) == SkipBody(buf, p, t.inner, ArrayInner(s), total)
  {
    hide SkipOffsets;
  }

  lemma {:induction false} ArrayBodyFits(t: ColumnType, s: SkipState, rows: nat, c: Column)
    requires t.Array? && rows != 0 && c.Nested? && OffsetsOk(c.offsets, rows)
    requires FitsBody(t.inner, ArrayInner(s), LastOf(0, c.offsets), c.inner)
    ensures FitsBody(t, s, rows, c)
  {
    hide OffsetsOk, LastOf;
  }

  lemma {:induction false} MapBodySound(buf: seq<byte>, pos: nat, t: ColumnType, s: SkipState, rows: nat) returns (c: Column)
    requires pos <= |buf| && t.Map? && rows != 0 && SkipMapBody(buf, pos, t.key, t.value, s, rows).Ok?
    ensures FitsBody(t, s, rows, c) && Occurs(buf, pos, Wire(c))
    ensures SkipMapBody(buf, pos, t.key, t.value, s, rows).value == pos + |Wire(c)|
    decreases StateSize(s), TypeSize(t), 0
  {
    hide Occurs, OffsetsOk, SkipOffsets, OffsetsWire, LastOf, SkipBody, FitsBody;
    var offsets := OffsetsSound(buf, pos, rows);
    var start, total := pos + |OffsetsWire(offsets)|, LastOf(0, offsets);
    var k := BodySound(buf, start, t.key, MapKey(s), total);
    var v := BodySound(buf, start + |Wire(k)|, t.value, MapValue(s), total);
    c := Nested(offsets, Join(k, v));
    FitsMapBody(t, s, rows, offsets, k, v);
    OccursConcat(buf, start, Wire(k), Wire(v));
    OccursConcat(buf, pos, OffsetsWire(offsets), Wire(Join(k, v)));
  }

  lemma {:induction false} StatefulBodySound(buf: seq<byte>, pos: nat, t: ColumnType, s: SkipState, rows: nat) returns (c: Column)
    requires pos <= |buf| && (t.JSON? || t.Dynamic? || t.Variant?) && rows != 0 && SkipBody(buf, pos, t, s, rows).Ok?
    ensures FitsBody(t, s, rows, c) && Occurs(buf, pos, Wire(c))
    ensures SkipBody(buf, pos, t, s, rows).value == pos + |Wire(c)|
    decreases StateSize(s), TypeSize(t), 0
  {
    hide Occurs, SkipJsonBody, SkipDynamicBody, SkipVariantBody, FitsJsonBody, FitsDynamicBody, FitsVariant;
    if t.JSON? {
      c := JsonBodySound(buf, pos, s.version, s.paths, rows);
    } else if t.Dynamic? {
      c := DynamicBodySound(buf, pos, s.dynamic, rows);
    } else {
      c := VariantSound(buf, pos, t.types, VariantElems(s), rows);
    }
  }

  lemma {:induction false} ElemsSound(buf: seq<byte>, pos: nat, ts: seq<ColumnType>, ss: seq<SkipState>, rows: nat) returns (c: Column)
    requires pos <= |buf| && SkipElems(buf, pos, ts, ss, rows).Ok?
    ensures FitsElems(ts, ss, rows, c) && Occurs(buf, pos, Wire(c))
    ensures SkipElems(buf, pos, ts, ss, rows).value == pos + |Wire(c)|
    decreases StatesSize(ss), TypesSize(ts), 1
  {
    hide Occurs, FitsBody, SkipBody;
    if ts == [] {
      c := Blank;
      EmptyOccurs(buf, pos);
    } else {
      var rest := RestOf(ss);
      var x := BodySound(buf, pos, ts[0], StateAt(ss, 0), rows);
      var y := ElemsSound(buf, pos + |Wire(x)|, ts[1..], rest, rows);
      c := Join(x, y);
      OccursConcat(buf, pos, Wire(x), Wire(y));
    }
  }

  lemma {:induction false} CountedSound(buf: seq<byte>, pos: nat, ts: seq<ColumnType>, ss: seq<SkipState>, counts: seq<nat>) returns (c: Column)
    requires pos <= |buf| && |counts| == |ts| && SkipCounted(buf, pos, ts, ss, counts).Ok?
    ensures FitsCounted(ts, ss, counts, c) && Occurs(buf, pos, Wire(c))
    ensures SkipCounted(buf, pos, ts, ss, counts).value == pos + |Wire(c)|
    decreases StatesSize(ss), TypesSize(ts), 1
  {
    hide Occurs, FitsBody, SkipBody;
    if ts == [] {
      c := Blank;
      EmptyOccurs(buf, pos);
    } else {
      var rest := RestOf(ss);
      var x := BodySound(buf, pos, ts[0], StateAt(ss, 0), counts[0]);
      var y := CountedSound(buf, pos + |Wire(x)|, ts[1..], rest, counts[1..]);
      c := Join(x, y);
      OccursConcat(buf, pos, Wire(x), Wire(y));
    }
  }

  lemma {:induction false} VariantSound(buf: seq<byte>, pos: nat, ts: seq<ColumnType>, ss: seq<SkipState>, rows: nat) returns (c: Column)
    requires pos <= |buf| && rows != 0 && SkipVariantBody(buf, pos, ts, ss, rows).Ok?
    ensures FitsVariant(ts, ss, rows, c) && Occurs(buf, pos, Wire(c))
    ensures SkipVariantBody(buf, pos, ts, ss, rows).value == pos + |Wire(c)|
    decreases StatesSize(ss), TypesSize(ts), 3
  {
    hide FitsVariant, SkipVariantBody, Wire, Occurs;
    if ts == [] {
      c := TypelessSound(buf, pos, ss, rows);
    } else if U64At(buf, pos).Ok? && U64At(buf, pos).value.0 == 0 {
      c := BasicSound(buf, pos, ts, ss, rows);
    } else {
      c := CompactSound(buf, pos, ts, ss, rows);
    }
  }

  lemma TypelessSound(buf: seq<byte>, pos: nat, ss: seq<SkipState>, rows: nat) returns (c: Column)
    requires pos <= |buf| && rows != 0 && SkipVariantBody(buf, pos, [], ss, rows).Ok?
    ensures FitsVariant([], ss, rows, c) && Occurs(buf, pos, Wire(c))
    ensures SkipVariantBody(buf, pos, [], ss, rows).value == pos + |Wire(c)|
  {
    hide FitsBody, SkipBody, FitsCounted, SkipCounted, U64Bytes, LeValue;
    U64Sound(buf, pos);
    c := Typeless(U64At(buf, pos).value.0);
  }

  lemma {:induction false} BasicSound(buf: seq<byte>, pos: nat, ts: seq<ColumnType>, ss: seq<SkipState>, rows: nat) returns (c: Column)
    requires pos <= |buf| && rows != 0 && ts != [] && SkipVariantBody(buf, pos, ts, ss, rows).Ok?
    requires U64At(buf, pos).Ok? && U64At(buf, pos).value.0 == 0
    ensures FitsVariant(ts, ss, rows, c) && Occurs(buf, pos, Wire(c))
    ensures SkipVariantBody(buf, pos, ts, ss, rows).value == pos + |Wire(c)|
    decreases StatesSize(ss), TypesSize(ts), 2
  {
    hide FitsBody, SkipBody, FitsCounted, SkipCounted, U64Bytes, Counts, LeValue;
    U64Sound(buf, pos);
    var discs := buf[pos + 8..pos + 8 + rows];
    OccursSlice(buf, pos + 8, pos + 8 + rows);
    var subs := CountedSound(buf, pos + 8 + rows, ts, ss, Counts(discs, |ts|));
    c := Variants(discs, subs);
    OccursConcat(buf, pos + 8, discs, Wire(subs));
    OccursConcat(buf, pos, U64Bytes(0), discs + Wire(subs));
  }

  lemma {:induction false} CompactSound(buf: seq<byte>, pos: nat, ts: seq<ColumnType>, ss: seq<SkipState>, rows: nat) returns (c: Column)
    requires pos <= |buf| && rows != 0 && ts != [] && SkipVariantBody(buf, pos, ts, ss, rows).Ok?
    requires U64At(buf, pos).Ok? ==> U64At(buf, pos).value.0 != 0
    ensures FitsVariant(ts, ss, rows, c) && Occurs(buf, pos, Wire(c))
    ensures SkipVariantBody(buf, pos, ts, ss, rows).value == pos + |Wire(c)|
    decreases StatesSize(ss), TypesSize(ts), 2
  {
    hide Occurs, Wire, FitsBody, SkipBody, FitsCounted, SkipCounted, U64Bytes;
    U64Sound(buf, pos);
    U64Sound(buf, pos + 8);
    U64Sound(buf, pos + 16);
    var disc, compact := U64At(buf, pos + 8).value.0, U64At(buf, pos + 16).value.0;
    var sub := Blank;
    if disc < |ts| {
      BlankFits(ts[disc], StateAt(ss, disc));
      if compact > 0 {
        MemberSize(ts, disc);
        StateAtSize(ss, disc);
        sub := BodySound(buf, pos + 24, ts[disc], StateAt(ss, disc), compact);
      }
    }
    if sub.Blank? { BlankWire(); EmptyOccurs(buf, pos + 24); }
    c := Compact(disc, compact, sub);
    CompactWire(buf, pos, c);
  }

  lemma CompactWire(buf: seq<byte>, pos: nat, c: Column)
    requires c.Compact? && Occurs(buf, pos, U64Bytes(1)) && Occurs(buf, pos + 8, U64Bytes(c.disc))
    requires Occurs(buf, pos + 16, U64Bytes(c.count)) && Occurs(buf, pos + 24, Wire(c.sub))
    ensures Occurs(buf, pos, Wire(c)) && |Wire(c)| == 24 + |Wire(c.sub)|
  {
    hide Occurs, U64Bytes;
    OccursConcat(buf, pos + 16, U64Bytes(c.count), Wire(c.sub));
    OccursConcat(buf, pos + 8, U64Bytes(c.disc), U64Bytes(c.count) + Wire(c.sub));
    OccursConcat(buf, pos, U64Bytes(1), U64Bytes(c.disc) + (U64Bytes(c.count) + Wire(c.sub)));
  }

  lemma BlankWire()
    ensures Wire(Blank) == []
  {
  }

  lemma BlankFits(t: ColumnType, s: SkipState)
    ensures FitsBody(t, s, 0, Blank)
  {
  }

  lemma HeaderSound(buf: seq<byte>, pos: nat) returns (serial: nat, keys: nat)
    requires DictionaryHeader(buf, pos).Ok?
    ensures serial < U64_LIMIT && keys <= MAX_JSON_DYNAMIC_ITEMS && IndexWidth(1, serial).Ok?
    ensures DictionaryHeader(buf, pos).value == (IndexWidth(1, serial).value, keys, pos + 24)
    ensures Occurs(buf, pos, HeaderWire(serial, keys))
  {
    hide U64Bytes;
    U64Sound(buf, pos);
    U64Sound(buf, pos + 8);
    U64Sound(buf, pos + 16);
    serial, keys := LeValue(buf[pos + 8..pos + 16]), LeValue(buf[pos + 16..pos + 24]);
    OccursConcat(buf, pos + 8, U64Bytes(serial), U64Bytes(keys));
    OccursConcat(buf, pos, U64Bytes(1), U64Bytes(serial) + U64Bytes(keys));
  }

  lemma IndexesSound(buf: seq<byte>, pos: nat, width: nat, rows: nat) returns (indexes: seq<byte>)
    requires DictionaryIndexes(buf, pos, width, rows).Ok?
    ensures rows < U64_LIMIT && CellsOk(indexes, rows, width)
    ensures Occurs(buf, pos, U64Bytes(rows) + indexes)
    ensures DictionaryIndexes(buf, pos, width, rows).value == pos + 8 + |indexes|
  {
    hide U64Bytes;
    U64Sound(buf, pos);
    indexes := buf[pos + 8..DictionaryIndexes(buf, pos, width, rows).value];
    OccursConcat(buf, pos, U64Bytes(rows), indexes);
  }

  lemma DictionaryWire(buf: seq<byte>, pos: nat, c: Column)
    requires c.Dictionary? && Occurs(buf, pos, HeaderWire(c.serial, c.keys)) && Occurs(buf, pos + 24, Wire(c.entries))
    requires Occurs(buf, pos + 24 + |Wire(c.entries)|, U64Bytes(c.count) + c.indexes)
    ensures Occurs(buf, pos, Wire(c)) && |Wire(c)| == 24 + |Wire(c.entries)| + 8 + |c.indexes|
  {
    hide Occurs, U64Bytes, HeaderWire;
    OccursConcat(buf, pos + 24, Wire(c.entries), U64Bytes(c.count) + c.indexes);
    OccursConcat(buf, pos, HeaderWire(c.serial, c.keys), Wire(c.entries) + (U64Bytes(c.count) + c.indexes));
  }

  lemma {:induction false} DictionarySound(buf: seq<byte>, pos: nat, t: ColumnType, s: SkipState, rows: nat) returns (c: Column)
    requires pos <= |buf| && SkipDictionary(buf, pos, t, s, rows).Ok?
    ensures DictionaryOk(rows, c) && FitsBody(t, s, c.keys, c.entries) && Occurs(buf, pos, Wire(c))
    ensures SkipDictionary(buf, pos, t, s, rows).value == pos + |Wire(c)|
    decreases StateSize(s), TypeSize(t), 2
  {
    hide Wire, Occurs, FitsBody, SkipBody, DictionaryHeader, DictionaryIndexes, IndexWidth, CellsOk, HeaderWire, U64Bytes;
    var serial, keys := HeaderSound(buf, pos);
    var entries := BodySound(buf, pos + 24, t, s, keys);
    var indexes := IndexesSound(buf, pos + 24 + |Wire(entries)|, IndexWidth(1, serial).value, rows);
    c := Dictionary(serial, keys, entries, rows, indexes);
    DictionaryWire(buf, pos, c);
  }

  lemma DiscsSound(buf: seq<byte>, pos: nat, version: nat, types: nat, rows: nat) returns (bytes: seq<byte>)
    requires pos <= |buf| && ReadDiscs(buf, pos, version, types, rows).Ok?
    ensures var (discs, end) := ReadDiscs(buf, pos, version, types, rows).value;
            && FitsDiscs(version, types, rows, bytes, discs)
            && Occurs(buf, pos, bytes) && end == pos + |bytes|
  {
    bytes := buf[pos..ReadDiscs(buf, pos, version, types, rows).value.1];
  }

  lemma {:induction false} DynamicBodySound(buf: seq<byte>, pos: nat, d: DynState, rows: nat) returns (c: Column)
    requires pos <= |buf| && SkipDynamicBody(buf, pos, d, rows).Ok?
    ensures FitsDynamicBody(d, rows, c) && Occurs(buf, pos, Wire(c))
    ensures SkipDynamicBody(buf, pos, d, rows).value == pos + |Wire(c)|
    decreases DynSize(d), 0, 0
  {
    hide Occurs, ReadDiscs, FitsDiscs, SkipCountedNames, FitsCountedNames, Counts;
    if rows == 0 || d.names == [] || d.version == 0 {
      c := Blank;
      EmptyOccurs(buf, pos);
    } else {
      var discs := ReadDiscs(buf, pos, d.version, |d.names|, rows).value.0;
      var bytes := DiscsSound(buf, pos, d.version, |d.names|, rows);
      var subs := CountedNamesSound(buf, pos + |bytes|, d.names, d.states, Counts(discs, |d.names|));
      c := Dynamics(bytes, subs);
      OccursConcat(buf, pos, bytes, Wire(subs));
    }
  }

  lemma {:induction false} CountedNamesSound(buf: seq<byte>, pos: nat, names: seq<string>, ss: seq<SkipState>, counts: seq<nat>) returns (c: Column)
    requires pos <= |buf| && |counts| == |names| && SkipCountedNames(buf, pos, names, ss, counts).Ok?
    ensures FitsCountedNames(names, ss, counts, c) && Occurs(buf, pos, Wire(c))
    ensures SkipCountedNames(buf, pos, names, ss, counts).value == pos + |Wire(c)|
    decreases |names| + StatesSize(ss), 0, 0
  {
    hide Occurs, FitsBody, SkipBody, ParseType;
    if names == [] {
      c := Blank;
      EmptyOccurs(buf, pos);
    } else {
      var rest := RestOf(ss);
      var x := Blank;
      if counts[0] == 0 {
        EmptyOccurs(buf, pos);
      } else {
        x := BodySound(buf, pos, ParseType(names[0]).value, StateAt(ss, 0), counts[0]);
      }
      var y := CountedNamesSound(buf, pos + |Wire(x)|, names[1..], rest, counts[1..]);
      c := Join(x, y);
      OccursConcat(buf, pos, Wire(x), Wire(y));
    }
  }

  lemma {:induction false} JsonBodySound(buf: seq<byte>, pos: nat, version: nat, ds: seq<DynState>, rows: nat) returns (c: Column)
    requires pos <= |buf| && SkipJsonBody(buf, pos, version, ds, rows).Ok?
    ensures FitsJsonBody(version, ds, rows, c) && Occurs(buf, pos, Wire(c))
    ensures SkipJsonBody(buf, pos, version, ds, rows).value == pos + |Wire(c)|
    decreases DynsSize(ds), 1, 0
  {
    hide FitsDynamicBodies, SkipDynamicBodies, StrsOk, StrsWire, SkipStrings;
    if version == 1 || version == 4 {
      var items := StringsSound(buf, pos, rows);
      c := Strings(items);
    } else {
      var bodies := DynamicBodiesSound(buf, pos, ds, rows);
      var p := pos + |Wire(bodies)|;
      var trailer := buf[p..SkipJsonBody(buf, pos, version, ds, rows).value];
      c := JsonBodies(bodies, trailer);
      OccursConcat(buf, pos, Wire(bodies), trailer);
    }
  }

  lemma {:induction false} DynamicBodiesSound(buf: seq<byte>, pos: nat, ds: seq<DynState>, rows: nat) returns (c: Column)
    requires pos <= |buf| && SkipDynamicBodies(buf, pos, ds, rows).Ok?
    ensures FitsDynamicBodies(ds, rows, c) && Occurs(buf, pos, Wire(c))
    ensures SkipDynamicBodies(buf, pos, ds, rows).value == pos + |Wire(c)|
    decreases DynsSize(ds), 0, 0
  {
    hide Occurs, FitsDynamicBody, SkipDynamicBody;
    if ds == [] {
      c := Blank;
      EmptyOccurs(buf, pos);
    } else {
      var x := DynamicBodySound(buf, pos, ds[0], rows);
      var y := DynamicBodiesSound(buf, pos + |Wire(x)|, ds[1..], rows);
      c := Join(x, y);
      OccursConcat(buf, pos, Wire(x), Wire(y));
    }
  }

  // --------------------------------------------------------------------------
  // Whole columns
  // --------------------------------------------------------------------------

  /** The bytes the skipper passes over are a column of the type it was given. */
  lemma {:induction false} DataSound(buf: seq<byte>, pos: nat, t: ColumnType, rows: nat) returns (c: Column)
    requires pos <= |buf| && SkipData(buf, pos, t, rows).Ok?
    ensures FitsData(t, rows, c) && Occurs(buf, pos, Wire(c))
    ensures SkipData(buf, pos, t, rows).value == pos + |Wire(c)|
    decreases TypeSize(t), 1
  {
    hide Occurs, SkipJson, SkipOffsets, SkipMapData, SkipDataElems, SkipDictionary, SkipVariantBody, SkipDynamicBody, SkipPrefixes, SkipDynamicState, SkipPoint, SkipLayout, LayoutOf, FitsDataElems, DictionaryOk, FitsVariant, FitsDynamicBody, FitsDynamic, FitsPrefixes, FitsPoint, FitsLayout, OffsetsOk, OffsetsWire, LastOf;
    if rows == 0 {
      c := Blank;
      EmptyOccurs(buf, pos);
    } else if t.JSON? {
      c := JsonDataSound(buf, pos, rows);
    } else if t.Nullable? {
      c := NullableDataSound(buf, pos, t, rows);
    } else if t.Array? {
      c := ArrayDataSound(buf, pos, t, rows);
    } else if t.Map? {
      c := MapDataSound(buf, pos, t, rows);
    } else if t.Tuple? {
      c := DataElemsSound(buf, pos, t.elems, rows);
    } else if t.Point? {
      c := PointSound(buf, pos, rows);
    } else if IsAlias(t) {
      c := DataSound(buf, pos, Alias(t), rows);
    } else if t.LowCardinality? {
      c := DictionarySound(buf, pos, t.inner, NoState, rows);
    } else if t.Variant? {
      c := VariantDataSound(buf, pos, t, rows);
    } else if t.Dynamic? {
      c := DynamicDataSound(buf, pos, t, rows);
    } else {
      c := LayoutSound(buf, pos, LayoutOf(t), rows);
    }
  }

  lemma JsonDataSound(buf: seq<byte>, pos: nat, rows: nat) returns (c: Column)
    requires pos <= |buf| && rows != 0 && SkipJson(buf, pos, rows).Ok?
    ensures FitsData(JSON, rows, c) && Occurs(buf, pos, Wire(c))
    ensures SkipJson(buf, pos, rows).value == pos + |Wire(c)|
  {
    hide Occurs, StrsWire, U64Bytes, StrsOk, SkipStrings;
    U64Sound(buf, pos);
    var items := StringsSound(buf, pos + 8, rows);
    c := JsonStrings(U64At(buf, pos).value.0, items);
    OccursConcat(buf, pos, U64Bytes(c.version), StrsWire(items));
  }

  lemma {:induction false} NullableDataSound(buf: seq<byte>, pos: nat, t: ColumnType, rows: nat) returns (c: Column)
    requires pos <= |buf| && t.Nullable? && rows != 0 && SkipData(buf, pos, t, rows).Ok?
    ensures FitsData(t, rows, c) && Occurs(buf, pos, Wire(c))
    ensures SkipData(buf, pos, t, rows).value == pos + |Wire(c)|
    decreases TypeSize(t), 0
  {
    hide Occurs, SkipOffsets, OffsetsOk, LayoutOf, SkipLayout, FitsLayout, SkipDictionary, SkipDataElems, SkipMapData, SkipVariantBody, SkipDynamicBody, SkipPrefixes, SkipDynamicState;
    var inner := DataSound(buf, pos + rows, t.inner, rows);
    c := Masked(buf[pos..pos + rows], inner);
    OccursSlice(buf, pos, pos + rows);
    OccursConcat(buf, pos, c.nulls, Wire(inner));
  }

  lemma {:induction false} ArrayDataSound(buf: seq<byte>, pos: nat, t: ColumnType, rows: nat) returns (c: Column)
    requires pos <= |buf| && t.Array? && rows != 0 && SkipData(buf, pos, t, rows).Ok?
    ensures FitsData(t, rows, c) && Occurs(buf, pos, Wire(c))
    ensures SkipData(buf, pos, t, rows).value == pos + |Wire(c)|
    decreases TypeSize(t), 0
  {
    hide Occurs, OffsetsOk, SkipOffsets, OffsetsWire, LastOf, SkipData, FitsData;
    ArrayData(buf, pos, t, rows);
    var offsets := OffsetsSound(buf, pos, rows);
    var inner := DataSound(buf, pos + |OffsetsWire(offsets)|, t.inner, LastOf(0, offsets));
    c := Nested(offsets, inner);
    FitsArray(t, rows, offsets, inner);
    OccursConcat(buf, pos, OffsetsWire(offsets), Wire(inner));
  }

  lemma ArrayData(buf: seq<byte>, pos: nat, t: ColumnType, rows: nat)
    requires pos <= |buf| && t.Array? && rows != 0
    ensures var o := SkipOffsets(buf, pos, rows);
            if o.Err? then SkipData(buf, pos, t, rows) == Err(o.error)
            else SkipData(buf, pos, t, rows) == SkipData(buf, o.value.1, t.inner, o.value.0)
  {
    hide SkipOffsets;
  }

  lemma FitsArray(t: ColumnType, rows: nat, offsets: seq<nat>, inner: Column)
    requires t.Array? && rows != 0 && OffsetsOk(offsets, rows) && FitsData(t.inner, LastOf(0, offsets), inner)
    ensures FitsData(t, rows, Nested(offsets, inner))
  {
    hide OffsetsOk, LastOf;
  }

  lemma {:induction false} MapDataSound(buf: seq<byte>, pos: nat, t: ColumnType, rows: nat) returns (c: Column)
    requires pos <= |buf| && t.Map? && rows != 0 && SkipMapData(buf, pos, t.key, t.value, rows).Ok?
    ensures FitsData(t, rows, c) && Occurs(buf, pos, Wire(c))
    ensures SkipMapData(buf, pos, t.key, t.value, rows).value == pos + |Wire(c)|
    decreases TypeSize(t), 0
  {
    hide Occurs, OffsetsOk, SkipOffsets, OffsetsWire, LastOf, SkipData, FitsData;
    var offsets := OffsetsSound(buf, pos, rows);
    var start, total := pos + |OffsetsWire(offsets)|, LastOf(0, offsets);
    var k := DataSound(buf, start, t.key, total);
    var v := DataSound(buf, start + |Wire(k)|, t.value, total);
    c := Nested(offsets, Join(k, v));
    FitsMap(t, rows, offsets, k, v);
    OccursConcat(buf, start, Wire(k), Wire(v));
    OccursConcat(buf, pos, OffsetsWire(offsets), Wire(Join(k, v)));
  }

  lemma {:induction false} FitsMapBody(t: ColumnType, s: SkipState, rows: nat, offsets: seq<nat>, k: Column, v: Column)
    requires t.Map? && rows != 0 && OffsetsOk(offsets, rows)
    requires FitsBody(t.key, MapKey(s), LastOf(0, offsets), k) && FitsBody(t.value, MapValue(s), LastOf(0, offsets), v)
    ensures FitsBody(t, s, rows, Nested(offsets, Join(k, v)))
  {
    hide OffsetsOk, LastOf;
  }

  lemma {:induction false} FitsMap(t: ColumnType, rows: nat, offsets: seq<nat>, k: Column, v: Column)
    requires t.Map? && rows != 0 && OffsetsOk(offsets, rows)
    requires FitsData(t.key, LastOf(0, offsets), k) && FitsData(t.value, LastOf(0, offsets), v)
    ensures FitsData(t, rows, Nested(offsets, Join(k, v)))
  {
    hide OffsetsOk, LastOf;
  }

  lemma VariantDataSound(buf: seq<byte>, pos: nat, t: ColumnType, rows: nat) returns (c: Column)
    requires pos <= |buf| && t.Variant? && rows != 0 && SkipData(buf, pos, t, rows).Ok?
    ensures FitsData(t, rows, c) && Occurs(buf, pos, Wire(c))
    ensures SkipData(buf, pos, t, rows).value == pos + |Wire(c)|
  {
    hide Occurs, PrefixWire, FitsPrefixes, FitsVariant, SkipPrefixes, SkipVariantBody, SkipLayout, LayoutOf;
    var prefix := PrefixesSound(buf, pos, t.types);
    var ss := SkipPrefixes(buf, pos, t.types).value.0;
    var body := VariantSound(buf, pos + |PrefixWire(prefix)|, t.types, ss, rows);
    c := Prefixed(prefix, body);
    OccursConcat(buf, pos, PrefixWire(prefix), Wire(body));
  }

  lemma DynamicDataSound(buf: seq<byte>, pos: nat, t: ColumnType, rows: nat) returns (c: Column)
    requires pos <= |buf| && t.Dynamic? && rows != 0 && SkipData(buf, pos, t, rows).Ok?
    ensures FitsData(t, rows, c) && Occurs(buf, pos, Wire(c))
    ensures SkipData(buf, pos, t, rows).value == pos + |Wire(c)|
  {
    hide Occurs, PrefixWire, FitsDynamic, FitsDynamicBody, SkipDynamicState, SkipDynamicBody, SkipLayout, LayoutOf;
    var prefix := DynamicStateSound(buf, pos);
    var d := SkipDynamicState(buf, pos).value.0;
    var body := DynamicBodySound(buf, pos + |PrefixWire(prefix)|, d, rows);
    c := Prefixed(prefix, body);
    OccursConcat(buf, pos, PrefixWire(prefix), Wire(body));
  }

  lemma {:induction false} DataElemsSound(buf: seq<byte>, pos: nat, ts: seq<ColumnType>, rows: nat) returns (c: Column)
    requires pos <= |buf| && SkipDataElems(buf, pos, ts, rows).Ok?
    ensures FitsDataElems(ts, rows, c) && Occurs(buf, pos, Wire(c))
    ensures SkipDataElems(buf, pos, ts, rows).value == pos + |Wire(c)|
    decreases TypesSize(ts), 0
  {
    hide Occurs, FitsData, SkipData;
    if ts == [] {
      c := Blank;
      EmptyOccurs(buf, pos);
    } else {
      var x := DataSound(buf, pos, ts[0], rows);
      var y := DataElemsSound(buf, pos + |Wire(x)|, ts[1..], rows);
      c := Join(x, y);
      OccursConcat(buf, pos, Wire(x), Wire(y));
    }
  }
}
