/** The column type tree of `shared/type_parser.rs`. */
module ColumnTypes {
  import opened Bytes

  datatype ColumnType =
    | UInt8 | UInt16 | UInt32 | UInt64 | UInt128 | UInt256
    | Int8 | Int16 | Int32 | Int64 | Int128 | Int256
    | Float32 | Float64
    | Bool
    | String
    | FixedString(size: u64)
    | Date | Date32 | DateTime
    | DateTime64(scale: u32)
    | Decimal(precision: u32, scale: u32)
    | UUID | IPv4 | IPv6
    | Enum8 | Enum16
    | Nullable(inner: ColumnType)
    | Array(inner: ColumnType)
    | Map(key: ColumnType, value: ColumnType)
    | Tuple(elems: seq<ColumnType>)
    | LowCardinality(inner: ColumnType)
    | AggregateFunction | SimpleAggregateFunction
    | Nothing
    | Time
    | Time64(scale: u32)
    | JSON
    | Variant(types: seq<ColumnType>)
    | Dynamic
    | Point | Ring | Polygon | MultiPolygon
    | Other(name: string)

  /** Nodes of the type tree after the geo aliases are written out, which is
      what makes the rewriting of `Ring` into `Array(Point)` a descent. */
  function TypeSize(t: ColumnType): (n: nat)
    ensures n >= 1
  {
    if t.Nullable? || t.Array? || t.LowCardinality? then 1 + TypeSize(t.inner)
    else if t.Map? then 1 + TypeSize(t.key) + TypeSize(t.value)
    else if t.Tuple? then 1 + TypesSize(t.elems)
    else if t.Variant? then 1 + TypesSize(t.types)
    else if t.Point? then 2
    else if t.Ring? then 4
    else if t.Polygon? then 6
    else if t.MultiPolygon? then 8
    else 1
  }

  function TypesSize(ts: seq<ColumnType>): (n: nat)
    ensures ts != [] ==> n > TypeSize(ts[0])
  {
    if ts == [] then 0 else 1 + TypeSize(ts[0]) + TypesSize(ts[1..])
  }

  predicate IsAlias(t: ColumnType)
  {
    t.Ring? || t.Polygon? || t.MultiPolygon?
  }

  /** The type a geo alias stands for. */
  function Alias(t: ColumnType): (u: ColumnType)
    requires IsAlias(t)
    ensures TypeSize(u) < TypeSize(t)
  {
    Array(if t.Ring? then Point else if t.Polygon? then Ring else Polygon)
  }

  lemma {:induction false} MemberSize(ts: seq<ColumnType>, i: nat)
    requires i < |ts|
    ensures TypeSize(ts[i]) < TypesSize(ts)
  {
    if i > 0 {
      MemberSize(ts[1..], i - 1);
    }
  }
}
