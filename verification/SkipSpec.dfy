/** What `shared/skip_column.rs` computes: the position behind one column's
    wire bytes, or the reason there is none. Positions are threaded as values;
    the loops that advance them are in module SkipColumn. */
module SkipSpec {
  import opened Bytes
  import opened Limits
  import opened Varint
  import Utf8
  import opened ColumnTypes
  import opened TypeText

  // --------------------------------------------------------------------------
  // Subcolumn states
  // --------------------------------------------------------------------------

  datatype SkipState =
    | NoState
    | NullableState(inner: SkipState)
    | ArrayState(inner: SkipState)
    | MapState(key: SkipState, value: SkipState)
    | TupleState(elems: seq<SkipState>)
    | LowCardinalityState(inner: SkipState)
    | VariantState(elems: seq<SkipState>)
    | DynamicState(dynamic: DynState)
    | JsonState(version: nat, paths: seq<DynState>)

  datatype DynState = DynState(version: nat, names: seq<string>, states: seq<SkipState>)

  function StateSize(s: SkipState): (n: nat)
  {
    match s
    case NoState => 0
    case NullableState(i) => 1 + StateSize(i)
    case ArrayState(i) => 1 + StateSize(i)
    case LowCardinalityState(i) => 1 + StateSize(i)
    case MapState(k, v) => 1 + StateSize(k) + StateSize(v)
    case TupleState(ss) => 1 + StatesSize(ss)
    case VariantState(ss) => 1 + StatesSize(ss)
    case DynamicState(d) => 1 + DynSize(d)
    case JsonState(_, ds) => 1 + DynsSize(ds)
  }

  function StatesSize(ss: seq<SkipState>): (n: nat)
  {
    if ss == [] then 0 else 1 + StateSize(ss[0]) + StatesSize(ss[1..])
  }

  function DynSize(d: DynState): (n: nat)
  {
    1 + |d.names| + StatesSize(d.states)
  }

  function DynsSize(ds: seq<DynState>): (n: nat)
  {
    if ds == [] then 0 else 1 + DynSize(ds[0]) + DynsSize(ds[1..])
  }

  /** `states.get(i).unwrap_or(&SkipState::None)`. */
  function StateAt(states: seq<SkipState>, i: nat): (s: SkipState)
  {
    if i < |states| then states[i] else NoState
  }

  function RestOf(states: seq<SkipState>): (rest: seq<SkipState>)
    ensures StatesSize(rest) + StateSize(StateAt(states, 0)) <= StatesSize(states)
  {
    if states == [] then [] else states[1..]
  }

  lemma {:induction false} StateAtSize(states: seq<SkipState>, i: nat)
    ensures StateSize(StateAt(states, i)) <= StatesSize(states)
  {
    if 0 < i < |states| {
      StateAtSize(states[1..], i - 1);
    }
  }

  function NullableInner(s: SkipState): (i: SkipState)
    ensures StateSize(i) <= StateSize(s)
  {
    if s.NullableState? then s.inner else NoState
  }

  function ArrayInner(s: SkipState): (i: SkipState)
    ensures StateSize(i) <= StateSize(s)
  {
    if s.ArrayState? then s.inner else NoState
  }

  function LowCardinalityInner(s: SkipState): (i: SkipState)
    ensures StateSize(i) <= StateSize(s)
  {
    if s.LowCardinalityState? then s.inner else NoState
  }

  function MapKey(s: SkipState): (i: SkipState)
    ensures StateSize(i) <= StateSize(s)
  {
    if s.MapState? then s.key else NoState
  }

  function MapValue(s: SkipState): (i: SkipState)
    ensures StateSize(i) <= StateSize(s)
  {
    if s.MapState? then s.value else NoState
  }

  function TupleElems(s: SkipState): (ss: seq<SkipState>)
    ensures StatesSize(ss) <= StateSize(s)
  {
    if s.TupleState? then s.elems else []
  }

  function VariantElems(s: SkipState): (ss: seq<SkipState>)
    ensures StatesSize(ss) <= StateSize(s)
  {
    if s.VariantState? then s.elems else []
  }

  // --------------------------------------------------------------------------
  // Flat pieces of the wire format
  // --------------------------------------------------------------------------

  /** `advance_pos` and `parse_bytes`. */
  function Advance(buf: seq<byte>, pos: nat, len: nat): (r: Result<nat>)
    ensures r.Ok? ==> r.value == pos + len <= |buf|
  {
    if pos + len > |buf| then Err(Truncated) else Ok(pos + len)
  }

  /** `rows` cells of `width` bytes, capped per column. */
  function AdvanceCells(buf: seq<byte>, pos: nat, rows: nat, width: nat): (r: Result<nat>)
    ensures r.Ok? ==> pos <= r.value <= |buf|
  {
    var len :- ColumnLen(rows, width);
    Advance(buf, pos, len)
  }

  /** `read_u64_le`. */
  function U64At(buf: seq<byte>, pos: nat): (r: Result<(nat, nat)>)
    ensures r.Ok? ==> r.value.1 == pos + 8 <= |buf|
  {
    if pos + 8 > |buf| then Err(Truncated) else Ok((LeValue(buf[pos..pos + 8]), pos + 8))
  }

  /** The last of `rows` cumulative offsets, checked against the cap and `prev`. */
  function OffsetsFrom(buf: seq<byte>, pos: nat, rows: nat, prev: nat): (r: Result<nat>)
    requires pos + 8 * rows <= |buf|
    decreases rows
  {
    if rows == 0 then Ok(prev)
    else
      var v :- NextOffset(prev, LeValue(buf[pos..pos + 8]));
      OffsetsFrom(buf, pos + 8, rows - 1, v)
  }

  /** `skip_offsets`: the inner row count and the position behind the offsets. */
  function SkipOffsets(buf: seq<byte>, pos: nat, rows: nat): (r: Result<(nat, nat)>)
    ensures r.Ok? ==> pos <= r.value.1 <= |buf|
  {
    var end :- AdvanceCells(buf, pos, rows, 8);
    var total :- OffsetsFrom(buf, pos, rows, 0);
    Ok((total, end))
  }

  /** `skip_string_rows`. */
  function SkipStrings(buf: seq<byte>, pos: nat, rows: nat): (r: Result<nat>)
    requires pos <= |buf|
    ensures r.Ok? ==> pos <= r.value <= |buf|
    decreases rows
  {
    if rows == 0 then Ok(pos)
    else
      var (n, p) :- VarintAt(buf, pos);
      var len :- StringLen(n);
      var q :- Advance(buf, p, len);
      SkipStrings(buf, q, rows - 1)
  }

  /** Types whose cells carry no state and contain no other type. */
  predicate IsSimple(t: ColumnType)
  {
    !(t.Nullable? || t.Array? || t.Map? || t.Tuple? || t.LowCardinality? || t.JSON? || t.Variant? || t.Dynamic?
      || t.Point? || IsAlias(t))
  }

  /** How the cells of a simple type lie on the wire. One-byte types are the
      only ones whose length is not checked against the column cap. */
  datatype Layout = OneByte | Cells(width: nat) | Texts | Refused

  function LayoutOf(t: ColumnType): (l: Layout)
    requires IsSimple(t)
  {
    match t
    case UInt8 | Int8 | Bool | Enum8 | Nothing => OneByte
    case UInt16 | Int16 | Date | Enum16 => Cells(2)
    case UInt32 | Int32 | Float32 | Date32 | DateTime | Time | IPv4 => Cells(4)
    case UInt64 | Int64 | Float64 => Cells(8)
    case DateTime64(_) => Cells(8)
    case Time64(_) => Cells(8)
    case UInt128 | Int128 | UUID | IPv6 => Cells(16)
    case UInt256 | Int256 => Cells(32)
    case FixedString(n) => Cells(n)
    case Decimal(p, _) =>
      if 1 <= p <= 9 then Cells(4)
      else if 10 <= p <= 18 then Cells(8)
      else if 19 <= p <= 38 then Cells(16)
      else if 39 <= p <= 76 then Cells(32)
      else Refused
    case String => Texts
    case Other(_) => Texts
    case AggregateFunction | SimpleAggregateFunction => Refused
  }

  function SkipLayout(buf: seq<byte>, pos: nat, layout: Layout, rows: nat): (r: Result<nat>)
    requires pos <= |buf|
    ensures r.Ok? ==> pos <= r.value <= |buf|
  {
    match layout
    case OneByte => Advance(buf, pos, rows)
    case Cells(width) => AdvanceCells(buf, pos, rows, width)
    case Texts => SkipStrings(buf, pos, rows)
    case Refused => Err(Unsupported)
  }

  /** Two `Float64` columns, one after the other. */
  function SkipPoint(buf: seq<byte>, pos: nat, rows: nat): (r: Result<nat>)
    requires pos <= |buf|
    ensures r.Ok? ==> pos <= r.value <= |buf|
  {
    var p :- SkipLayout(buf, pos, LayoutOf(Float64), rows);
    SkipLayout(buf, p, LayoutOf(Float64), rows)
  }

  /** `skip_materialized_json`. */
  function SkipJson(buf: seq<byte>, pos: nat, rows: nat): (r: Result<nat>)
    ensures r.Ok? ==> pos <= r.value <= |buf|
  {
    var (version, p) :- U64At(buf, pos);
    if version != 1 && version != 4 then Err(UnknownVersion) else SkipStrings(buf, p, rows)
  }

  // --------------------------------------------------------------------------
  // Discriminators
  // --------------------------------------------------------------------------

  /** How often `x` occurs in `s`. */
  function CountOf(s: seq<nat>, x: nat): (n: nat)
    ensures n <= |s|
  {
    if s == [] then 0
    else CountOf(s[..|s| - 1], x) + if s[|s| - 1] == x then 1 else 0
  }

  /** One count per type, whatever marks NULL left out. */
  function Counts(discs: seq<nat>, types: nat): (counts: seq<nat>)
    ensures |counts| == types
    ensures forall i :: 0 <= i < types ==> counts[i] == CountOf(discs, i)
  {
    seq(types, i requires 0 <= i < types => CountOf(discs, i))
  }

  predicate AllDiscs(discs: seq<nat>, types: nat, nullMark: nat)
  {
    forall i :: 0 <= i < |discs| ==> discs[i] < types || discs[i] == nullMark
  }

  /** `chunks_exact(width)`, each read as a little-endian number. */
  function Chunks(s: seq<byte>, width: nat): (discs: seq<nat>)
    requires width > 0
  {
    if |s| < width then [] else [LeValue(s[..width])] + Chunks(s[width..], width)
  }

  /** `dynamic_discriminator_width`. */
  function DiscWidth(types: nat): (w: nat)
    ensures w in {1, 2, 4, 8}
    ensures types < U64_LIMIT ==> types < Pow256(w)
    ensures w > 1 ==> types >= Pow256(w / 2)
  {
    PowersOf256();
    if types < 0x100 then 1 else if types < 0x1_0000 then 2 else if types < U32_LIMIT then 4 else 8
  }

  // --------------------------------------------------------------------------
  // State prefixes
  // --------------------------------------------------------------------------

  /** The names of a `read_type_names` list, behind its count. */
  function ReadNames(buf: seq<byte>, pos: nat, count: nat): (r: Result<(seq<string>, nat)>)
    requires pos <= |buf|
    ensures r.Ok? ==> pos <= r.value.1 <= |buf|
    decreases count
  {
    if count == 0 then Ok(([], pos))
    else
      var (n, p) :- VarintAt(buf, pos);
      var len :- StringLen(n);
      var q :- Advance(buf, p, len);
      match Utf8.Decode(buf[p..q])
      case None => Err(BadUtf8)
      case Some(name) =>
        var (names, end) :- ReadNames(buf, q, count - 1);
        Ok(([name] + names, end))
  }

  function ReadNameList(buf: seq<byte>, pos: nat): (r: Result<(seq<string>, nat)>)
    requires pos <= |buf|
    ensures r.Ok? ==> pos <= r.value.1 <= |buf|
  {
    var (n, p) :- VarintAt(buf, pos);
    var count :- ItemCount(n);
    ReadNames(buf, p, count)
  }

  /** The type names of a Dynamic state, by serialization version. */
  function ReadDynamicNames(buf: seq<byte>, pos: nat, version: nat): (r: Result<(seq<string>, nat)>)
    requires pos <= |buf|
    ensures r.Ok? ==> pos <= r.value.1 <= |buf|
  {
    if version == 0 then Ok(([], pos))
    else if version == 1 then
      var (_, p) :- VarintAt(buf, pos);
      var (names, q) :- ReadNameList(buf, p);
      var (_, end) :- U64At(buf, q);
      Ok((names, end))
    else if version == 2 || version == 3 then ReadNameList(buf, pos)
    else Err(UnknownVersion)
  }

  /** `skip_state_prefix`. */
  function SkipPrefix(buf: seq<byte>, pos: nat, t: ColumnType): (r: Result<(SkipState, nat)>)
    requires pos <= |buf|
    ensures r.Ok? ==> pos <= r.value.1 <= |buf|
    decreases |buf| - pos, TypeSize(t)
  {
    if t.Nullable? then var (s, p) :- SkipPrefix(buf, pos, t.inner); Ok((NullableState(s), p))
    else if t.Array? then var (s, p) :- SkipPrefix(buf, pos, t.inner); Ok((ArrayState(s), p))
    else if t.LowCardinality? then var (s, p) :- SkipPrefix(buf, pos, t.inner); Ok((LowCardinalityState(s), p))
    else if t.Map? then
      var (ks, p) :- SkipPrefix(buf, pos, t.key);
      var (vs, q) :- SkipPrefix(buf, p, t.value);
      Ok((MapState(ks, vs), q))
    else if t.Tuple? then var (ss, p) :- SkipPrefixes(buf, pos, t.elems); Ok((TupleState(ss), p))
    else if t.Variant? then var (ss, p) :- SkipPrefixes(buf, pos, t.types); Ok((VariantState(ss), p))
    else if t.Dynamic? then var (d, p) :- SkipDynamicState(buf, pos); Ok((DynamicState(d), p))
    else if t.JSON? then SkipJsonState(buf, pos)
    else Ok((NoState, pos))
  }

  function SkipPrefixes(buf: seq<byte>, pos: nat, ts: seq<ColumnType>): (r: Result<(seq<SkipState>, nat)>)
    requires pos <= |buf|
    ensures r.Ok? ==> pos <= r.value.1 <= |buf|
    decreases |buf| - pos, TypesSize(ts)
  {
    if ts == [] then Ok(([], pos))
    else
      var (s, p) :- SkipPrefix(buf, pos, ts[0]);
      var (ss, q) :- SkipPrefixes(buf, p, ts[1..]);
      Ok(([s] + ss, q))
  }

  /** `skip_dynamic_state`. It eats eight bytes before it meets a type name, so
      a Dynamic that names Dynamic again still gets nearer to the end. */
  function SkipDynamicState(buf: seq<byte>, pos: nat): (r: Result<(DynState, nat)>)
    requires pos <= |buf|
    ensures r.Ok? ==> pos + 8 <= r.value.1 <= |buf|
    decreases |buf| - pos, 0
  {
    var (version, p) :- U64At(buf, pos);
    var (names, q) :- ReadDynamicNames(buf, p, version);
    var (states, end) :- SkipNamed(buf, q, names);
    Ok((DynState(version, names, states), end))
  }

  /** The state prefixes of the types named on the wire. */
  function SkipNamed(buf: seq<byte>, pos: nat, names: seq<string>): (r: Result<(seq<SkipState>, nat)>)
    requires pos <= |buf|
    ensures r.Ok? ==> pos <= r.value.1 <= |buf|
    decreases |buf| - pos + 1, |names|
  {
    if names == [] then Ok(([], pos))
    else
      var t :- ParseType(names[0]);
      var (s, p) :- SkipPrefix(buf, pos, t);
      var (ss, q) :- SkipNamed(buf, p, names[1..]);
      Ok(([s] + ss, q))
  }

  /** `skip_json_state`. */
  function SkipJsonState(buf: seq<byte>, pos: nat): (r: Result<(SkipState, nat)>)
    requires pos <= |buf|
    ensures r.Ok? ==> pos + 8 <= r.value.1 <= |buf|
    decreases |buf| - pos, 0
  {
    var (version, p) :- U64At(buf, pos);
    if version == 1 || version == 4 then Ok((JsonState(version, []), p))
    else if version == 3 then
      var (ds, end) :- SkipJsonPaths(buf, p);
      Ok((JsonState(version, ds), end))
    else if version == 0 then
      var (_, q) :- VarintAt(buf, p);
      var (ds, end) :- SkipJsonPaths(buf, q);
      Ok((JsonState(version, ds), end))
    else Err(UnknownVersion)
  }

  function SkipJsonPaths(buf: seq<byte>, pos: nat): (r: Result<(seq<DynState>, nat)>)
    requires pos <= |buf|
    ensures r.Ok? ==> pos <= r.value.1 <= |buf|
    decreases |buf| - pos + 2, 0
  {
    var (n, p) :- VarintAt(buf, pos);
    var count :- ItemCount(n);
    var q :- SkipStrings(buf, p, count);
    SkipDynamicStates(buf, q, count)
  }

  function SkipDynamicStates(buf: seq<byte>, pos: nat, count: nat): (r: Result<(seq<DynState>, nat)>)
    requires pos <= |buf|
    ensures r.Ok? ==> pos <= r.value.1 <= |buf|
    decreases |buf| - pos + 1, count
  {
    if count == 0 then Ok(([], pos))
    else
      var (d, p) :- SkipDynamicState(buf, pos);
      var (ds, q) :- SkipDynamicStates(buf, p, count - 1);
      Ok(([d] + ds, q))
  }

  // --------------------------------------------------------------------------
  // Bodies behind a state prefix
  // --------------------------------------------------------------------------

  /** `skip_body_raw`. Simple types fall through to the materialized layout. */
  function SkipBody(buf: seq<byte>, pos: nat, t: ColumnType, s: SkipState, rows: nat): (r: Result<nat>)
    requires pos <= |buf|
    ensures r.Ok? ==> pos <= r.value <= |buf|
    decreases StateSize(s), TypeSize(t), 1
  {
    if rows == 0 then Ok(pos)
    else
      if t.Nullable? then
        var p :- Advance(buf, pos, rows);
        SkipBody(buf, p, t.inner, NullableInner(s), rows)
      else if t.Array? then
        var (total, p) :- SkipOffsets(buf, pos, rows);
        SkipBody(buf, p, t.inner, ArrayInner(s), total)
      else if t.Map? then SkipMapBody(buf, pos, t.key, t.value, s, rows)
      else if t.Tuple? then SkipElems(buf, pos, t.elems, TupleElems(s), rows)
      else if t.LowCardinality? then SkipDictionary(buf, pos, t.inner, LowCardinalityInner(s), rows)
      else if t.JSON? then
        if s.JsonState? then SkipJsonBody(buf, pos, s.version, s.paths, rows) else Err(MissingState)
      else if t.Dynamic? then
        if s.DynamicState? then SkipDynamicBody(buf, pos, s.dynamic, rows) else Err(MissingState)
      else if t.Variant? then SkipVariantBody(buf, pos, t.types, VariantElems(s), rows)
      else if t.Point? then SkipPoint(buf, pos, rows)
      else if IsAlias(t) then SkipBody(buf, pos, Alias(t), NoState, rows)
      else SkipLayout(buf, pos, LayoutOf(t), rows)
  }

  function SkipMapBody(buf: seq<byte>, pos: nat, k: ColumnType, v: ColumnType, s: SkipState, rows: nat): (r: Result<nat>)
    requires pos <= |buf|
    ensures r.Ok? ==> pos <= r.value <= |buf|
    decreases StateSize(s), TypeSize(k) + TypeSize(v), 2
  {
    var (total, p) :- SkipOffsets(buf, pos, rows);
    var q :- SkipBody(buf, p, k, MapKey(s), total);
    SkipBody(buf, q, v, MapValue(s), total)
  }

  function SkipElems(buf: seq<byte>, pos: nat, ts: seq<ColumnType>, ss: seq<SkipState>, rows: nat): (r: Result<nat>)
    requires pos <= |buf|
    ensures r.Ok? ==> pos <= r.value <= |buf|
    decreases StatesSize(ss), TypesSize(ts), 1
  {
    if ts == [] then Ok(pos)
    else
      var rest := RestOf(ss);
      var p :- SkipBody(buf, pos, ts[0], StateAt(ss, 0), rows);
      SkipElems(buf, p, ts[1..], rest, rows)
  }

  /** The subcolumns of a Variant, each for its own row count. */
  function SkipCounted(buf: seq<byte>, pos: nat, ts: seq<ColumnType>, ss: seq<SkipState>, counts: seq<nat>): (r: Result<nat>)
    requires pos <= |buf| && |counts| == |ts|
    ensures r.Ok? ==> pos <= r.value <= |buf|
    decreases StatesSize(ss), TypesSize(ts), 1
  {
    if ts == [] then Ok(pos)
    else
      var rest := RestOf(ss);
      var p :- SkipBody(buf, pos, ts[0], StateAt(ss, 0), counts[0]);
      SkipCounted(buf, p, ts[1..], rest, counts[1..])
  }

  /** `skip_variant_body`. */
  function SkipVariantBody(buf: seq<byte>, pos: nat, ts: seq<ColumnType>, ss: seq<SkipState>, rows: nat): (r: Result<nat>)
    requires pos <= |buf|
    ensures r.Ok? ==> pos <= r.value <= |buf|
    decreases StatesSize(ss), TypesSize(ts), 2
  {
    var (mode, p) :- U64At(buf, pos);
    if rows == 0 || ts == [] then Ok(p)
    else if mode == 0 then
      var q :- Advance(buf, p, rows);
      SkipCounted(buf, q, ts, ss, Counts(buf[p..q], |ts|))
    else if mode == 1 then
      var (disc, q) :- U64At(buf, p);
      var (compact, body) :- U64At(buf, q);
      if compact > rows then Err(CountMismatch)
      else if disc < |ts| && compact > 0 then
        MemberSize(ts, disc);
        StateAtSize(ss, disc);
        SkipBody(buf, body, ts[disc], StateAt(ss, disc), compact)
      else Ok(body)
    else Err(UnknownVersion)
  }

  /** `skip_lc_column`. */
  function SkipDictionary(buf: seq<byte>, pos: nat, t: ColumnType, s: SkipState, rows: nat): (r: Result<nat>)
    requires pos <= |buf|
    ensures r.Ok? ==> pos <= r.value <= |buf|
    decreases StateSize(s), TypeSize(t), 2
  {
    var (width, keys, p) :- DictionaryHeader(buf, pos);
    var q :- SkipBody(buf, p, t, s, keys);
    DictionaryIndexes(buf, q, width, rows)
  }

  /** `lc_idx_width`: bits 0-1 give the width, bit 8 must be clear, bit 9 set. */
  function IndexWidth(version: nat, serial: nat): (r: Result<nat>)
    ensures r.Ok? ==> r.value in {1, 2, 4, 8}
  {
    if version != 1 then Err(UnknownVersion)
    else if serial / 0x100 % 2 != 0 then Err(Unsupported)
    else if serial / 0x200 % 2 == 0 then Err(Unsupported)
    else Ok(if serial % 4 == 0 then 1 else if serial % 4 == 1 then 2 else if serial % 4 == 2 then 4 else 8)
  }

  /** The 24-byte header: index width, number of keys, position behind it. */
  function DictionaryHeader(buf: seq<byte>, pos: nat): (r: Result<(nat, nat, nat)>)
    ensures r.Ok? ==> r.value.2 == pos + 24 <= |buf|
  {
    if pos + 24 > |buf| then Err(Truncated)
    else
      var width :- IndexWidth(LeValue(buf[pos..pos + 8]), LeValue(buf[pos + 8..pos + 16]));
      var keys :- ItemCount(LeValue(buf[pos + 16..pos + 24]));
      Ok((width, keys, pos + 24))
  }

  /** The index count, which must be the row count, and the index bytes. */
  function DictionaryIndexes(buf: seq<byte>, pos: nat, width: nat, rows: nat): (r: Result<nat>)
    ensures r.Ok? ==> pos <= r.value <= |buf|
  {
    var (count, p) :- U64At(buf, pos);
    if count != rows then Err(CountMismatch) else AdvanceCells(buf, p, count, width)
  }

  /** `skip_dynamic_body`. */
  function SkipDynamicBody(buf: seq<byte>, pos: nat, d: DynState, rows: nat): (r: Result<nat>)
    requires pos <= |buf|
    ensures r.Ok? ==> pos <= r.value <= |buf|
    decreases DynSize(d), 0, 0
  {
    if rows == 0 || d.names == [] || d.version == 0 then Ok(pos)
    else
      var (discs, p) :- ReadDiscs(buf, pos, d.version, |d.names|, rows);
      SkipCountedNames(buf, p, d.names, d.states, Counts(discs, |d.names|))
  }

  /** The discriminators of a Dynamic body: bytes with 255 for NULL in version
      1, as wide as the type count needs with the count for NULL in 2 and 3. */
  function ReadDiscs(buf: seq<byte>, pos: nat, version: nat, types: nat, rows: nat): (r: Result<(seq<nat>, nat)>)
    requires pos <= |buf|
    ensures r.Ok? ==> pos <= r.value.1 <= |buf|
  {
    if version == 1 then
      var p :- Advance(buf, pos, rows);
      if AllDiscs(buf[pos..p], types, 255) then Ok((buf[pos..p], p)) else Err(BadDiscriminator)
    else if version == 2 || version == 3 then
      var p :- AdvanceCells(buf, pos, rows, DiscWidth(types));
      var discs := Chunks(buf[pos..p], DiscWidth(types));
      if AllDiscs(discs, types, types) then Ok((discs, p)) else Err(BadDiscriminator)
    else Err(UnknownVersion)
  }

  /** `skip_counted_subcolumns`. */
  function SkipCountedNames(buf: seq<byte>, pos: nat, names: seq<string>, ss: seq<SkipState>, counts: seq<nat>): (r: Result<nat>)
    requires pos <= |buf| && |counts| == |names|
    ensures r.Ok? ==> pos <= r.value <= |buf|
    decreases |names| + StatesSize(ss), 0, 0
  {
    if names == [] then Ok(pos)
    else
      var rest := RestOf(ss);
      if counts[0] == 0 then SkipCountedNames(buf, pos, names[1..], rest, counts[1..])
      else
        var t :- ParseType(names[0]);
        var p :- SkipBody(buf, pos, t, StateAt(ss, 0), counts[0]);
        SkipCountedNames(buf, p, names[1..], rest, counts[1..])
  }

  /** `skip_json_body_raw`. */
  function SkipJsonBody(buf: seq<byte>, pos: nat, version: nat, ds: seq<DynState>, rows: nat): (r: Result<nat>)
    requires pos <= |buf|
    ensures r.Ok? ==> pos <= r.value <= |buf|
    decreases DynsSize(ds), 1, 0
  {
    if version == 1 || version == 4 then SkipStrings(buf, pos, rows)
    else if version == 3 then SkipDynamicBodies(buf, pos, ds, rows)
    else if version == 0 then
      var p :- SkipDynamicBodies(buf, pos, ds, rows);
      AdvanceCells(buf, p, rows, 8)
    else Err(UnknownVersion)
  }

  function SkipDynamicBodies(buf: seq<byte>, pos: nat, ds: seq<DynState>, rows: nat): (r: Result<nat>)
    requires pos <= |buf|
    ensures r.Ok? ==> pos <= r.value <= |buf|
    decreases DynsSize(ds), 0, 0
  {
    if ds == [] then Ok(pos)
    else
      var p :- SkipDynamicBody(buf, pos, ds[0], rows);
      SkipDynamicBodies(buf, p, ds[1..], rows)
  }

  // --------------------------------------------------------------------------
  // Whole columns
  // --------------------------------------------------------------------------

  /** `skip_column_data`. */
  function SkipData(buf: seq<byte>, pos: nat, t: ColumnType, rows: nat): (r: Result<nat>)
    requires pos <= |buf|
    ensures r.Ok? ==> pos <= r.value <= |buf|
    decreases TypeSize(t)
  {
    if rows == 0 then Ok(pos)
    else
      if t.JSON? then SkipJson(buf, pos, rows)
      else if t.Nullable? then
        var p :- Advance(buf, pos, rows);
        SkipData(buf, p, t.inner, rows)
      else if t.Array? then
        var (total, p) :- SkipOffsets(buf, pos, rows);
        SkipData(buf, p, t.inner, total)
      else if t.Map? then SkipMapData(buf, pos, t.key, t.value, rows)
      else if t.Tuple? then SkipDataElems(buf, pos, t.elems, rows)
      else if t.Point? then SkipPoint(buf, pos, rows)
      else if IsAlias(t) then SkipData(buf, pos, Alias(t), rows)
      else if t.LowCardinality? then SkipDictionary(buf, pos, t.inner, NoState, rows)
      else if t.Variant? then
        var (ss, p) :- SkipPrefixes(buf, pos, t.types);
        SkipVariantBody(buf, p, t.types, ss, rows)
      else if t.Dynamic? then
        var (d, p) :- SkipDynamicState(buf, pos);
        SkipDynamicBody(buf, p, d, rows)
      else SkipLayout(buf, pos, LayoutOf(t), rows)
  }

  function SkipMapData(buf: seq<byte>, pos: nat, k: ColumnType, v: ColumnType, rows: nat): (r: Result<nat>)
    requires pos <= |buf|
    ensures r.Ok? ==> pos <= r.value <= |buf|
    decreases TypeSize(k) + TypeSize(v)
  {
    var (total, p) :- SkipOffsets(buf, pos, rows);
    var q :- SkipData(buf, p, k, total);
    SkipData(buf, q, v, total)
  }

  function SkipDataElems(buf: seq<byte>, pos: nat, ts: seq<ColumnType>, rows: nat): (r: Result<nat>)
    requires pos <= |buf|
    ensures r.Ok? ==> pos <= r.value <= |buf|
    decreases TypesSize(ts)
  {
    if ts == [] then Ok(pos)
    else
      var p :- SkipData(buf, pos, ts[0], rows);
      SkipDataElems(buf, p, ts[1..], rows)
  }

  /** `skip_column_data_by_name`: a name the parser rejects is skipped as text. */
  function SkipByName(buf: seq<byte>, pos: nat, name: string, rows: nat): (r: Result<nat>)
    requires pos <= |buf|
    ensures r.Ok? ==> pos <= r.value <= |buf|
  {
    match ParseType(name)
    case Ok(t) => SkipData(buf, pos, t, rows)
    case Err(_) => SkipStrings(buf, pos, rows)
  }
}
