/** The native wire format of one column, described by the data that is
    written instead of by the code that reads it: a tree of the written parts,
    the bytes of such a tree, and when a tree is a column of a given type with
    a given number of rows. */
module WireFormat {
  import opened Bytes
  import opened Limits
  import opened Varint
  import Utf8
  import opened ColumnTypes
  import opened TypeText
  import opened SkipSpec

  // --------------------------------------------------------------------------
  // Length-prefixed strings and offsets
  // --------------------------------------------------------------------------

  /** A string as written: the bytes of its length, which need not be the
      shortest varint, and the bytes of its body. */
  datatype Str = Str(len: seq<byte>, body: seq<byte>)

  ghost predicate StrOk(s: Str)
  {
    IsVarint(s.len) && GroupValue(s.len) == |s.body| <= MAX_STRING_BYTES
  }

  ghost predicate StrsOk(items: seq<Str>)
  {
    forall i :: 0 <= i < |items| ==> StrOk(items[i])
  }

  function StrsWire(items: seq<Str>): (s: seq<byte>)
  {
    if items == [] then [] else items[0].len + (items[0].body + StrsWire(items[1..]))
  }

  function OffsetsWire(offsets: seq<nat>): (s: seq<byte>)
    ensures |s| == 8 * |offsets|
  {
    if offsets == [] then [] else U64Bytes(offsets[0]) + OffsetsWire(offsets[1..])
  }

  /** Cumulative row counts: non-decreasing from `prev` and within the row cap. */
  ghost predicate Ascending(prev: nat, offsets: seq<nat>)
    decreases |offsets|
  {
    offsets != [] ==> prev <= offsets[0] <= MAX_BLOCK_ROWS && Ascending(offsets[0], offsets[1..])
  }

  function LastOf(prev: nat, offsets: seq<nat>): (total: nat)
    decreases |offsets|
  {
    if offsets == [] then prev else LastOf(offsets[0], offsets[1..])
  }

  // --------------------------------------------------------------------------
  // State prefixes
  // --------------------------------------------------------------------------

  datatype Prefix =
    | NoPrefix
    | Sub(inner: Prefix)
    | Cons(first: Prefix, rest: Prefix)
    | DynPrefix(version: nat, maxTypes: seq<byte>, count: seq<byte>, names: seq<Str>, variantVersion: nat, subs: Prefix)
    | JsonPrefix(version: nat, maxPaths: seq<byte>, count: seq<byte>, paths: seq<Str>, subs: Prefix)

  function PrefixWire(p: Prefix): (s: seq<byte>)
  {
    match p
    case NoPrefix => []
    case Sub(inner) => PrefixWire(inner)
    case Cons(first, rest) => PrefixWire(first) + PrefixWire(rest)
    case DynPrefix(version, maxTypes, count, names, variantVersion, subs) =>
      U64Bytes(version) + (NamesWire(version, maxTypes, count, names, variantVersion) + PrefixWire(subs))
    case JsonPrefix(version, maxPaths, count, paths, subs) =>
      U64Bytes(version) + (PathsWire(version, maxPaths, count, paths) + PrefixWire(subs))
  }

  function NamesWire(version: nat, maxTypes: seq<byte>, count: seq<byte>, names: seq<Str>, variantVersion: nat): (s: seq<byte>)
  {
    if version == 0 then []
    else if version == 1 then maxTypes + ((count + StrsWire(names)) + U64Bytes(variantVersion))
    else count + StrsWire(names)
  }

  function PathsWire(version: nat, maxPaths: seq<byte>, count: seq<byte>, paths: seq<Str>): (s: seq<byte>)
  {
    if version == 1 || version == 4 then []
    else if version == 3 then count + StrsWire(paths)
    else maxPaths + (count + StrsWire(paths))
  }

  /** The written names are valid UTF-8 for the given texts. */
  ghost predicate NamesOk(items: seq<Str>, names: seq<string>)
  {
    && |items| == |names| && StrsOk(items)
    && forall i :: 0 <= i < |items| ==> Utf8.Decode(items[i].body) == Some(names[i])
  }

  /** A varint that announces `n` items, within the item cap. */
  ghost predicate CountOk(count: seq<byte>, n: nat)
  {
    IsVarint(count) && GroupValue(count) == n <= MAX_JSON_DYNAMIC_ITEMS
  }

  /** `p` is the state prefix of a subcolumn of type `t`, and reading it leaves
      the state `s`. */
  ghost predicate FitsPrefix(t: ColumnType, p: Prefix, s: SkipState)
    decreases p, 1
  {
    if t.Nullable? then p.Sub? && s.NullableState? && FitsPrefix(t.inner, p.inner, s.inner)
    else if t.Array? then p.Sub? && s.ArrayState? && FitsPrefix(t.inner, p.inner, s.inner)
    else if t.LowCardinality? then p.Sub? && s.LowCardinalityState? && FitsPrefix(t.inner, p.inner, s.inner)
    else if t.Map? then
      && p.Cons? && s.MapState?
      && FitsPrefix(t.key, p.first, s.key) && FitsPrefix(t.value, p.rest, s.value)
    else if t.Tuple? then s.TupleState? && FitsPrefixes(t.elems, p, s.elems)
    else if t.Variant? then s.VariantState? && FitsPrefixes(t.types, p, s.elems)
    else if t.Dynamic? then s.DynamicState? && FitsDynamic(p, s.dynamic)
    else if t.JSON? then s.JsonState? && FitsJson(p, s.version, s.paths)
    else p.NoPrefix? && s.NoState?
  }

  ghost predicate FitsPrefixes(ts: seq<ColumnType>, p: Prefix, ss: seq<SkipState>)
    decreases p, 0
  {
    if ts == [] then p.NoPrefix? && ss == []
    else
      && p.Cons? && ss != []
      && FitsPrefix(ts[0], p.first, ss[0]) && FitsPrefixes(ts[1..], p.rest, ss[1..])
  }

  ghost predicate FitsDynamic(p: Prefix, d: DynState)
    decreases p, 0
  {
    && p.DynPrefix? && p.version == d.version <= 3 && p.variantVersion < U64_LIMIT
    && NamesOk(p.names, d.names)
    && (p.version == 0 ==> p.names == [])
    && (p.version != 0 ==> CountOk(p.count, |p.names|))
    && (p.version == 1 ==> IsVarint(p.maxTypes))
    && FitsNamed(d.names, p.subs, d.states)
  }

  ghost predicate FitsNamed(names: seq<string>, p: Prefix, ss: seq<SkipState>)
    decreases p, 0
  {
    if names == [] then p.NoPrefix? && ss == []
    else
      && p.Cons? && ss != [] && ParseType(names[0]).Ok?
      && FitsPrefix(ParseType(names[0]).value, p.first, ss[0]) && FitsNamed(names[1..], p.rest, ss[1..])
  }

  ghost predicate FitsJson(p: Prefix, version: nat, ds: seq<DynState>)
    decreases p, 0
  {
    && p.JsonPrefix? && p.version == version && version in {0, 1, 3, 4}
    && (version == 1 || version == 4 ==> p.subs.NoPrefix? && ds == [])
    && (version == 0 || version == 3 ==>
          && CountOk(p.count, |p.paths|) && StrsOk(p.paths) && |ds| == |p.paths|
          && FitsDynamics(p.subs, ds))
    && (version == 0 ==> IsVarint(p.maxPaths))
  }

  ghost predicate FitsDynamics(p: Prefix, ds: seq<DynState>)
    decreases p, 0
  {
    if ds == [] then p.NoPrefix?
    else p.Cons? && FitsDynamic(p.first, ds[0]) && FitsDynamics(p.rest, ds[1..])
  }

  // --------------------------------------------------------------------------
  // Columns
  // --------------------------------------------------------------------------

  datatype Column =
    | Blank
    | Flat(bytes: seq<byte>)
    | Strings(items: seq<Str>)
    | JsonStrings(version: nat, items: seq<Str>)
    | Masked(nulls: seq<byte>, inner: Column)
    | Nested(offsets: seq<nat>, inner: Column)
    | Join(first: Column, rest: Column)
    | Dictionary(serial: nat, keys: nat, entries: Column, count: nat, indexes: seq<byte>)
    | Prefixed(prefix: Prefix, body: Column)
    | Typeless(mode: nat)
    | Variants(discs: seq<byte>, subs: Column)
    | Compact(disc: nat, count: nat, sub: Column)
    | Dynamics(discs: seq<byte>, subs: Column)
    | JsonBodies(bodies: Column, trailer: seq<byte>)

  function Wire(c: Column): (s: seq<byte>)
  {
    match c
    case Blank => []
    case Flat(bytes) => bytes
    case Strings(items) => StrsWire(items)
    case JsonStrings(version, items) => U64Bytes(version) + StrsWire(items)
    case Masked(nulls, inner) => nulls + Wire(inner)
    case Nested(offsets, inner) => OffsetsWire(offsets) + Wire(inner)
    case Join(first, rest) => Wire(first) + Wire(rest)
    case Dictionary(serial, keys, entries, count, indexes) =>
      HeaderWire(serial, keys) + (Wire(entries) + (U64Bytes(count) + indexes))
    case Prefixed(prefix, body) => PrefixWire(prefix) + Wire(body)
    case Typeless(mode) => U64Bytes(mode)
    case Variants(discs, subs) => U64Bytes(0) + (discs + Wire(subs))
    case Compact(disc, count, sub) => U64Bytes(1) + (U64Bytes(disc) + (U64Bytes(count) + Wire(sub)))
    case Dynamics(discs, subs) => discs + Wire(subs)
    case JsonBodies(bodies, trailer) => Wire(bodies) + trailer
  }

  /** The 24-byte LowCardinality header. */
  function HeaderWire(serial: nat, keys: nat): (s: seq<byte>)
    ensures |s| == 24
  {
    U64Bytes(1) + (U64Bytes(serial) + U64Bytes(keys))
  }

  /** `rows` cells of `width` bytes, within the column cap. */
  ghost predicate CellsOk(bytes: seq<byte>, rows: nat, width: nat)
  {
    |bytes| == rows * width <= MAX_COLUMN_BYTES
  }

  ghost predicate FitsLayout(layout: Layout, rows: nat, c: Column)
  {
    match layout
    case OneByte => c.Flat? && |c.bytes| == rows
    case Cells(width) => c.Flat? && CellsOk(c.bytes, rows, width)
    case Texts => c.Strings? && |c.items| == rows && StrsOk(c.items)
    case Refused => false
  }

  ghost predicate FitsPoint(rows: nat, c: Column)
  {
    c.Join? && FitsLayout(Cells(8), rows, c.first) && FitsLayout(Cells(8), rows, c.rest)
  }

  ghost predicate OffsetsOk(offsets: seq<nat>, rows: nat)
  {
    |offsets| == rows && 8 * rows <= MAX_COLUMN_BYTES && Ascending(0, offsets)
  }

  /** The discriminator bytes of a Dynamic body stand for `discs`. */
  ghost predicate FitsDiscs(version: nat, types: nat, rows: nat, bytes: seq<byte>, discs: seq<nat>)
  {
    if version == 1 then |bytes| == rows && discs == bytes && AllDiscs(discs, types, 255)
    else
      && (version == 2 || version == 3)
      && CellsOk(bytes, rows, DiscWidth(types))
      && discs == Chunks(bytes, DiscWidth(types)) && AllDiscs(discs, types, types)
  }

  /** A LowCardinality column for `rows` rows, its entries apart. */
  ghost predicate DictionaryOk(rows: nat, c: Column): (b: bool)
    ensures b ==> c.Dictionary?
  {
    && c.Dictionary? && c.serial < U64_LIMIT && IndexWidth(1, c.serial).Ok?
    && c.keys <= MAX_JSON_DYNAMIC_ITEMS && c.count == rows < U64_LIMIT
    && CellsOk(c.indexes, rows, IndexWidth(1, c.serial).value)
  }

  /** `c` is the body of a subcolumn of type `t` with `rows` rows whose prefix
      left the state `s`. */
  ghost predicate FitsBody(t: ColumnType, s: SkipState, rows: nat, c: Column)
    decreases c, TypeSize(t), 2
  {
    if rows == 0 then c.Blank?
    else if t.Nullable? then c.Masked? && |c.nulls| == rows && FitsBody(t.inner, NullableInner(s), rows, c.inner)
    else if t.Array? then
      c.Nested? && OffsetsOk(c.offsets, rows) && FitsBody(t.inner, ArrayInner(s), LastOf(0, c.offsets), c.inner)
    else if t.Map? then
      && c.Nested? && OffsetsOk(c.offsets, rows) && c.inner.Join?
      && FitsBody(t.key, MapKey(s), LastOf(0, c.offsets), c.inner.first)
      && FitsBody(t.value, MapValue(s), LastOf(0, c.offsets), c.inner.rest)
    else if t.Tuple? then FitsElems(t.elems, TupleElems(s), rows, c)
    else if t.LowCardinality? then
      DictionaryOk(rows, c) && FitsBody(t.inner, LowCardinalityInner(s), c.keys, c.entries)
    else if t.JSON? then s.JsonState? && FitsJsonBody(s.version, s.paths, rows, c)
    else if t.Dynamic? then s.DynamicState? && FitsDynamicBody(s.dynamic, rows, c)
    else if t.Variant? then FitsVariant(t.types, VariantElems(s), rows, c)
    else if t.Point? then FitsPoint(rows, c)
    else if IsAlias(t) then FitsBody(Alias(t), NoState, rows, c)
    else FitsLayout(LayoutOf(t), rows, c)
  }

  ghost predicate FitsElems(ts: seq<ColumnType>, ss: seq<SkipState>, rows: nat, c: Column)
    decreases c, 0, 0
  {
    if ts == [] then c.Blank?
    else c.Join? && FitsBody(ts[0], StateAt(ss, 0), rows, c.first) && FitsElems(ts[1..], RestOf(ss), rows, c.rest)
  }

  ghost predicate FitsCounted(ts: seq<ColumnType>, ss: seq<SkipState>, counts: seq<nat>, c: Column)
    requires |counts| == |ts|
    decreases c, 0, 0
  {
    if ts == [] then c.Blank?
    else
      && c.Join? && FitsBody(ts[0], StateAt(ss, 0), counts[0], c.first)
      && FitsCounted(ts[1..], RestOf(ss), counts[1..], c.rest)
  }

  ghost predicate FitsVariant(ts: seq<ColumnType>, ss: seq<SkipState>, rows: nat, c: Column)
    decreases c, 0, 1
  {
    if ts == [] then c.Typeless? && c.mode < U64_LIMIT
    else if c.Variants? then |c.discs| == rows && FitsCounted(ts, ss, Counts(c.discs, |ts|), c.subs)
    else
      && c.Compact? && c.disc < U64_LIMIT && c.count <= rows && c.count < U64_LIMIT
      && (if c.disc < |ts| then FitsBody(ts[c.disc], StateAt(ss, c.disc), c.count, c.sub) else c.sub.Blank?)
  }

  ghost predicate FitsDynamicBody(d: DynState, rows: nat, c: Column)
    decreases c, 0, 1
  {
    if rows == 0 || d.names == [] || d.version == 0 then c.Blank?
    else
      && c.Dynamics?
      && exists discs :: FitsDiscs(d.version, |d.names|, rows, c.discs, discs)
                         && FitsCountedNames(d.names, d.states, Counts(discs, |d.names|), c.subs)
  }

  ghost predicate FitsCountedNames(names: seq<string>, ss: seq<SkipState>, counts: seq<nat>, c: Column)
    requires |counts| == |names|
    decreases c, 0, 0
  {
    if names == [] then c.Blank?
    else if counts[0] == 0 then
      c.Join? && c.first.Blank? && FitsCountedNames(names[1..], RestOf(ss), counts[1..], c.rest)
    else
      && c.Join? && ParseType(names[0]).Ok?
      && FitsBody(ParseType(names[0]).value, StateAt(ss, 0), counts[0], c.first)
      && FitsCountedNames(names[1..], RestOf(ss), counts[1..], c.rest)
  }

  ghost predicate FitsJsonBody(version: nat, ds: seq<DynState>, rows: nat, c: Column)
    decreases c, 0, 1
  {
    if version == 1 || version == 4 then FitsLayout(Texts, rows, c)
    else
      && c.JsonBodies? && FitsDynamicBodies(ds, rows, c.bodies)
      && (version == 0 || version == 3)
      && (if version == 3 then c.trailer == [] else CellsOk(c.trailer, rows, 8))
  }

  ghost predicate FitsDynamicBodies(ds: seq<DynState>, rows: nat, c: Column)
    decreases c, 0, 0
  {
    if ds == [] then c.Blank?
    else c.Join? && FitsDynamicBody(ds[0], rows, c.first) && FitsDynamicBodies(ds[1..], rows, c.rest)
  }

  /** `c` is a column of type `t` with `rows` rows. */
  ghost predicate FitsData(t: ColumnType, rows: nat, c: Column)
    decreases c, TypeSize(t), 2
  {
    if rows == 0 then c.Blank?
    else if t.JSON? then
      c.JsonStrings? && (c.version == 1 || c.version == 4) && |c.items| == rows && StrsOk(c.items)
    else if t.Nullable? then c.Masked? && |c.nulls| == rows && FitsData(t.inner, rows, c.inner)
    else if t.Array? then c.Nested? && OffsetsOk(c.offsets, rows) && FitsData(t.inner, LastOf(0, c.offsets), c.inner)
    else if t.Map? then
      && c.Nested? && OffsetsOk(c.offsets, rows) && c.inner.Join?
      && FitsData(t.key, LastOf(0, c.offsets), c.inner.first)
      && FitsData(t.value, LastOf(0, c.offsets), c.inner.rest)
    else if t.Tuple? then FitsDataElems(t.elems, rows, c)
    else if t.Point? then FitsPoint(rows, c)
    else if IsAlias(t) then FitsData(Alias(t), rows, c)
    else if t.LowCardinality? then DictionaryOk(rows, c) && FitsBody(t.inner, NoState, c.keys, c.entries)
    else if t.Variant? then
      c.Prefixed? && exists ss :: FitsPrefixes(t.types, c.prefix, ss) && FitsVariant(t.types, ss, rows, c.body)
    else if t.Dynamic? then
      c.Prefixed? && exists d :: FitsDynamic(c.prefix, d) && FitsDynamicBody(d, rows, c.body)
    else FitsLayout(LayoutOf(t), rows, c)
  }

  ghost predicate FitsDataElems(ts: seq<ColumnType>, rows: nat, c: Column)
    decreases c, 0, 0
  {
    if ts == [] then c.Blank?
    else c.Join? && FitsData(ts[0], rows, c.first) && FitsDataElems(ts[1..], rows, c.rest)
  }
}
