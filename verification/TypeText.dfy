/** Column type names: the printer and the parser of `shared/type_parser.rs`. */
module TypeText {
  import opened Bytes
  import opened ColumnTypes

  const MAX_TYPE_NESTING: nat := 256

  // --------------------------------------------------------------------------
  // Characters, trimming and searching
  // --------------------------------------------------------------------------

  /** The characters `str::trim` removes: Unicode `White_Space`. */
  predicate IsSpace(c: char)
  {
    var v := c as int;
    || 0x09 <= v <= 0x0D || v == 0x20 || v == 0x85 || v == 0xA0 || v == 0x1680
    || 0x2000 <= v <= 0x200A || v == 0x2028 || v == 0x2029 || v == 0x202F || v == 0x205F || v == 0x3000
  }

  function TrimStart(s: string): (t: string)
    ensures |t| <= |s|
    ensures t == "" || !IsSpace(t[0])
  {
    if s != "" && IsSpace(s[0]) then TrimStart(s[1..]) else s
  }

  function TrimEnd(s: string): (t: string)
    ensures t <= s
    ensures t == "" || !IsSpace(t[|t| - 1])
  {
    if s != "" && IsSpace(s[|s| - 1]) then TrimEnd(s[..|s| - 1]) else s
  }

  function Trim(s: string): (t: string)
    ensures |t| <= |s|
  {
    TrimEnd(TrimStart(s))
  }

  /** The first position of `c`, or the length of `s`. */
  function IndexOf(s: string, c: char): (i: nat)
    ensures i <= |s| && c !in s[..i]
    ensures i < |s| ==> s[i] == c
  {
    if s == "" || s[0] == c then 0
    else
      var i := 1 + IndexOf(s[1..], c);
      assert s[..i] == [s[0]] + s[1..][..i - 1];
      i
  }

  /** The first comma outside parentheses, with `depth` of them open before `s`. */
  function CommaFrom(s: string, depth: int): (r: Option<nat>)
    ensures r.Some? ==> r.value < |s| && s[r.value] == ','
  {
    if s == "" then None
    else if s[0] == ',' && depth == 0 then Some(0)
    else
      var d := if s[0] == '(' then depth + 1 else if s[0] == ')' then depth - 1 else depth;
      match CommaFrom(s[1..], d)
      case None => None
      case Some(i) => Some(i + 1)
  }

  // --------------------------------------------------------------------------
  // Decimal numbers
  // --------------------------------------------------------------------------

  predicate IsDigit(c: char)
  {
    '0' <= c <= '9'
  }

  function DigitsValue(s: string): (v: nat)
    requires forall i :: 0 <= i < |s| ==> IsDigit(s[i])
  {
    if s == "" then 0
    else
      var last := s[|s| - 1];
      assert IsDigit(last);
      10 * DigitsValue(s[..|s| - 1]) + (last as int - '0' as int)
  }

  /** `parse::<u32>` and `parse::<usize>`: digits with an optional plus sign. */
  function ParseNumber(s: string, limit: nat): (r: Option<nat>)
    ensures r.Some? ==> r.value < limit
  {
    var digits := if s != "" && s[0] == '+' then s[1..] else s;
    if digits == "" || exists i :: 0 <= i < |digits| && !IsDigit(digits[i]) then None
    else if DigitsValue(digits) < limit then Some(DigitsValue(digits)) else None
  }

  function PrintNumber(n: nat): (s: string)
    ensures s != ""
  {
    var last := ('0' as int + n % 10) as char;
    if n < 10 then [last] else PrintNumber(n / 10) + [last]
  }

  // --------------------------------------------------------------------------
  // The printer
  // --------------------------------------------------------------------------

  /** Types whose name is a single word. */
  predicate IsWord(t: ColumnType)
  {
    match t
    case FixedString(_) => false
    case DateTime64(_) => false
    case Decimal(_, _) => false
    case Nullable(_) => false
    case Array(_) => false
    case Map(_, _) => false
    case Tuple(_) => false
    case LowCardinality(_) => false
    case Time64(_) => false
    case Variant(_) => false
    case _ => true
  }

  function Word(t: ColumnType): (s: string)
    requires IsWord(t)
  {
    match t
    case UInt8 => "UInt8"
    case UInt16 => "UInt16"
    case UInt32 => "UInt32"
    case UInt64 => "UInt64"
    case UInt128 => "UInt128"
    case UInt256 => "UInt256"
    case Int8 => "Int8"
    case Int16 => "Int16"
    case Int32 => "Int32"
    case Int64 => "Int64"
    case Int128 => "Int128"
    case Int256 => "Int256"
    case Float32 => "Float32"
    case Float64 => "Float64"
    case Bool => "Bool"
    case String => "String"
    case Date => "Date"
    case Date32 => "Date32"
    case DateTime => "DateTime"
    case UUID => "UUID"
    case IPv4 => "IPv4"
    case IPv6 => "IPv6"
    case Enum8 => "Enum8"
    case Enum16 => "Enum16"
    case AggregateFunction => "AggregateFunction"
    case SimpleAggregateFunction => "SimpleAggregateFunction"
    case Nothing => "Nothing"
    case Time => "Time"
    case JSON => "JSON"
    case Dynamic => "Dynamic"
    case Point => "Point"
    case Ring => "Ring"
    case Polygon => "Polygon"
    case MultiPolygon => "MultiPolygon"
    case Other(name) => name
  }

  /** The name before the parenthesis of a parameterised type. */
  function Base(t: ColumnType): (s: string)
    requires !IsWord(t)
  {
    match t
    case FixedString(_) => "FixedString"
    case DateTime64(_) => "DateTime64"
    case Time64(_) => "Time64"
    case Decimal(_, _) => "Decimal"
    case Nullable(_) => "Nullable"
    case Array(_) => "Array"
    case LowCardinality(_) => "LowCardinality"
    case Map(_, _) => "Map"
    case Tuple(_) => "Tuple"
    case Variant(_) => "Variant"
  }

  function Applied(base: string, args: string): (s: string)
  {
    base + "(" + args + ")"
  }

  function Pair(a: string, b: string): (s: string)
  {
    a + ", " + b
  }

  /** `Display for ColumnType`. */
  function Print(t: ColumnType): (s: string)
    decreases t, 1
  {
    if IsWord(t) then Word(t) else Applied(Base(t), Args(t))
  }

  function Args(t: ColumnType): (s: string)
    requires !IsWord(t)
    decreases t, 0
  {
    match t
    case FixedString(n) => PrintNumber(n)
    case DateTime64(scale) => PrintNumber(scale)
    case Time64(scale) => PrintNumber(scale)
    case Decimal(p, scale) => Pair(PrintNumber(p), PrintNumber(scale))
    case Nullable(inner) => Print(inner)
    case Array(inner) => Print(inner)
    case LowCardinality(inner) => Print(inner)
    case Map(k, v) => Pair(Print(k), Print(v))
    case Tuple(ts) => PrintList(ts)
    case Variant(ts) => PrintList(ts)
  }

  function PrintList(ts: seq<ColumnType>): (s: string)
    decreases ts, 0
  {
    if ts == [] then ""
    else if |ts| == 1 then Print(ts[0])
    else Pair(Print(ts[0]), PrintList(ts[1..]))
  }

  // --------------------------------------------------------------------------
  // The parser
  // --------------------------------------------------------------------------

  function NumberWord(s: string): (r: Option<ColumnType>)
  {
    if s == "UInt8" then Some(UInt8)
    else if s == "UInt16" then Some(UInt16)
    else if s == "UInt32" then Some(UInt32)
    else if s == "UInt64" then Some(UInt64)
    else if s == "UInt128" then Some(UInt128)
    else if s == "UInt256" then Some(UInt256)
    else if s == "Int8" then Some(Int8)
    else if s == "Int16" then Some(Int16)
    else if s == "Int32" then Some(Int32)
    else if s == "Int64" then Some(Int64)
    else if s == "Int128" then Some(Int128)
    else if s == "Int256" then Some(Int256)
    else if s == "Float32" then Some(Float32)
    else if s == "Float64" then Some(Float64)
    else None
  }

  function OtherWord(s: string): (r: Option<ColumnType>)
  {
    if s == "Bool" then Some(Bool)
    else if s == "String" then Some(String)
    else if s == "JSON" || s == "Json" then Some(JSON)
    else if s == "Dynamic" then Some(Dynamic)
    else if s == "Point" then Some(Point)
    else if s == "Ring" then Some(Ring)
    else if s == "Polygon" then Some(Polygon)
    else if s == "MultiPolygon" then Some(MultiPolygon)
    else if s == "Date" then Some(Date)
    else if s == "Date32" then Some(Date32)
    else if s == "Nothing" then Some(Nothing)
    else if s == "Time" then Some(Time)
    else if s == "DateTime" then Some(DateTime)
    else if s == "UUID" then Some(UUID)
    else if s == "IPv4" then Some(IPv4)
    else if s == "IPv6" then Some(IPv6)
    else None
  }

  predicate StartsWithTime64(s: string)
  {
    |s| >= 6 && s[..6] == "Time64"
  }

  /** A type name without parentheses. A name that starts with `Time64` is
      handed, letters included, to the number parser, which always rejects it. */
  function ParseWord(s: string): (r: Result<ColumnType>)
  {
    if NumberWord(s).Some? then Ok(NumberWord(s).value)
    else if OtherWord(s).Some? then Ok(OtherWord(s).value)
    else if StartsWithTime64(s) then Err(BadTypeName)
    else Ok(Other(s))
  }

  /** What a parenthesised base name builds. */
  datatype Former =
    | NullableF | ArrayF | MapF | TupleF | LowCardinalityF | VariantF
    | Enum8F | Enum16F | DateTimeF | ObjectF | AggregateF | SimpleAggregateF
    | FixedStringF | DateTime64F | Time64F
    | DecimalF | DecimalOf(precision: u32)
    | UnknownF

  function FormerOf(base: string): (f: Former)
  {
    if base == "Nullable" then NullableF
    else if base == "Array" then ArrayF
    else if base == "Map" then MapF
    else if base == "Tuple" then TupleF
    else if base == "LowCardinality" then LowCardinalityF
    else if base == "Enum8" then Enum8F
    else if base == "Enum16" then Enum16F
    else if base == "FixedString" then FixedStringF
    else if base == "DateTime64" then DateTime64F
    else if base == "DateTime" then DateTimeF
    else if base == "Time64" then Time64F
    else if base == "Decimal32" then DecimalOf(9)
    else if base == "Decimal64" then DecimalOf(18)
    else if base == "Decimal128" then DecimalOf(38)
    else if base == "Decimal256" then DecimalOf(76)
    else if base == "Decimal" then DecimalF
    else if base == "Variant" then VariantF
    else if base == "Object" || base == "object" then ObjectF
    else if base == "AggregateFunction" then AggregateF
    else if base == "SimpleAggregateFunction" then SimpleAggregateF
    else UnknownF
  }

  function NumberArg(s: string, limit: nat): (r: Result<nat>)
    ensures r.Ok? ==> r.value < limit
  {
    match ParseNumber(Trim(s), limit)
    case None => Err(BadTypeName)
    case Some(n) => Ok(n)
  }

  /** `parse_type_rec`. */
  function ParseRec(text: string, depth: nat): (r: Result<ColumnType>)
    decreases |text|, 1
  {
    if depth > MAX_TYPE_NESTING then Err(BadTypeName) else ParseTrimmed(Trim(text), depth)
  }

  function ParseTrimmed(s: string, depth: nat): (r: Result<ColumnType>)
    decreases |s|, 0
  {
    var paren := IndexOf(s, '(');
    if paren == 0 then Err(BadTypeName)
    else if paren == |s| then ParseWord(s)
    else if s[|s| - 1] != ')' then Err(BadTypeName)
    else ParseApplied(FormerOf(s[..paren]), Trim(s[paren + 1..|s| - 1]), s, depth)
  }

  function ParseApplied(former: Former, inner: string, whole: string, depth: nat): (r: Result<ColumnType>)
    decreases |inner| + 1, 0
  {
    match former
    case NullableF => var t :- ParseRec(inner, depth + 1); Ok(Nullable(t))
    case ArrayF => var t :- ParseRec(inner, depth + 1); Ok(Array(t))
    case LowCardinalityF => var t :- ParseRec(inner, depth + 1); Ok(LowCardinality(t))
    case MapF => ParseMap(inner, depth)
    case TupleF => var ts :- ParseList(inner, depth + 1); Ok(Tuple(ts))
    case VariantF => var ts :- ParseList(inner, depth + 1); Ok(Variant(ts))
    case _ => ParseParameters(former, inner, whole)
  }

  function ParseMap(inner: string, depth: nat): (r: Result<ColumnType>)
    decreases |inner|, 2
  {
    match CommaFrom(inner, 0)
    case None => Err(BadTypeName)
    case Some(comma) =>
      var k :- ParseRec(inner[..comma], depth + 1);
      var v :- ParseRec(inner[comma + 1..], depth + 1);
      Ok(Map(k, v))
  }

  /** Base names whose parameters are not types. */
  function ParseParameters(former: Former, inner: string, whole: string): (r: Result<ColumnType>)
  {
    match former
    case Enum8F => Ok(Enum8)
    case Enum16F => Ok(Enum16)
    case DateTimeF => Ok(DateTime)
    case ObjectF => Ok(JSON)
    case AggregateF => Ok(AggregateFunction)
    case SimpleAggregateF => Ok(SimpleAggregateFunction)
    case FixedStringF => var n :- NumberArg(inner, U64_LIMIT); Ok(FixedString(n))
    case DateTime64F => var n :- NumberArg(inner[..IndexOf(inner, ',')], U32_LIMIT); Ok(DateTime64(n))
    case Time64F => var n :- NumberArg(inner[..IndexOf(inner, ',')], U32_LIMIT); Ok(Time64(n))
    case DecimalOf(precision) => var n :- NumberArg(inner, U32_LIMIT); Ok(Decimal(precision, n))
    case DecimalF =>
      var comma := IndexOf(inner, ',');
      if comma == |inner| then Err(BadTypeName)
      else
        var p :- NumberArg(inner[..comma], U32_LIMIT);
        var n :- NumberArg(inner[comma + 1..], U32_LIMIT);
        Ok(Decimal(p, n))
    case _ => Ok(Other(whole))
  }

  /** The comma-separated types of a `Tuple` or `Variant`. */
  function ParseList(remaining: string, depth: nat): (r: Result<seq<ColumnType>>)
    decreases |remaining|, 2
  {
    if remaining == "" then Ok([])
    else
      match CommaFrom(remaining, 0)
      case None => var t :- ParseRec(remaining, depth); Ok([t])
      case Some(comma) =>
        var t :- ParseRec(remaining[..comma], depth);
        var ts :- ParseList(remaining[comma + 1..], depth);
        Ok([t] + ts)
  }

  /** `parse_type`. */
  function ParseType(text: string): (r: Result<ColumnType>)
  {
    ParseRec(text, 0)
  }

  // --------------------------------------------------------------------------
  // The loops
  // --------------------------------------------------------------------------

  function Shifted(r: Option<nat>, n: nat): (q: Option<nat>)
  {
    if r.Some? then Some(n + r.value) else None
  }

  /** `find_top_level_comma`. */
  method FindTopLevelComma(s: string) returns (r: Option<nat>)
    ensures r == CommaFrom(s, 0)
  {
    var depth := 0;
    assert s[0..] == s;
    for i := 0 to |s|
      invariant CommaFrom(s, 0) == Shifted(CommaFrom(s[i..], depth), i)
    {
      assert s[i..][1..] == s[i + 1..] && s[i..][0] == s[i];
      if s[i] == ',' && depth == 0 {
        return Some(i);
      }
      if s[i] == '(' {
        depth := depth + 1;
      } else if s[i] == ')' {
        depth := depth - 1;
      }
    }
    return None;
  }

  function Joined(types: seq<ColumnType>, r: Result<seq<ColumnType>>): (q: Result<seq<ColumnType>>)
  {
    if r.Ok? then Ok(types + r.value) else r
  }

  lemma JoinedStep(types: seq<ColumnType>, t: ColumnType, r: Result<seq<ColumnType>>)
    ensures Joined(types, Joined([t], r)) == Joined(types + [t], r)
  {
    if r.Ok? {
      assert types + ([t] + r.value) == (types + [t]) + r.value;
    }
  }

  lemma JoinedNone(r: Result<seq<ColumnType>>)
    ensures Joined([], r) == r
  {
    if r.Ok? {
      assert [] + r.value == r.value;
    }
  }

  lemma ListStep(remaining: string, depth: nat)
    requires remaining != ""
    ensures match CommaFrom(remaining, 0)
            case None =>
              var t := ParseRec(remaining, depth);
              ParseList(remaining, depth) == if t.Err? then Err(t.error) else Ok([t.value])
            case Some(comma) =>
              var t := ParseRec(remaining[..comma], depth);
              ParseList(remaining, depth) == if t.Err? then Err(t.error)
                                             else Joined([t.value], ParseList(remaining[comma + 1..], depth))
  {
  }

  /** The loop over `remaining` in the `Tuple` and `Variant` branches. */
  method ParseTypeList(inner: string, depth: nat) returns (r: Result<seq<ColumnType>>)
    ensures r == ParseList(inner, depth)
  {
    var types: seq<ColumnType> := [];
    var remaining := inner;
    JoinedNone(ParseList(inner, depth));
    while remaining != ""
      invariant ParseList(inner, depth) == Joined(types, ParseList(remaining, depth))
      decreases |remaining|
    {
      var comma := FindTopLevelComma(remaining);
      ListStep(remaining, depth);
      if comma.None? {
        var t := ParseRec(remaining, depth);
        if t.Err? { return Err(t.error); }
        return Ok(types + [t.value]);
      }
      var t := ParseRec(remaining[..comma.value], depth);
      if t.Err? { return Err(t.error); }
      JoinedStep(types, t.value, ParseList(remaining[comma.value + 1..], depth));
      types := types + [t.value];
      remaining := remaining[comma.value + 1..];
    }
    assert types + [] == types;
    return Ok(types);
  }
}
