/** The decoder and the skipper on whole Variant and Dynamic bodies: the rows
    the decoder returns, where it stops, and where the two parsers part. */
module VariantAgreement {
  import opened Bytes
  import opened Limits
  import opened ColumnTypes
  import opened TypeText
  import opened SkipSpec
  import opened WireFormat
  import opened FramingSound
  import opened FramingComplete
  import opened VariantDecode
  import opened DecodeAgreement
  import opened LeafAgreement
  import opened ScatterGather

  // --------------------------------------------------------------------------
  // Subcolumns of plain types carry no state
  // --------------------------------------------------------------------------

  /** A body of a decodable type is a column of that type, whatever the state. */
  lemma {:induction false} BodyIsData(t: ColumnType, s: SkipState, rows: nat, c: Column)
    requires Decodable(t) && FitsBody(t, s, rows, c)
    ensures FitsData(t, rows, c)
    decreases c, TypeSize(t), 1
  {
    hide Ascending, FitsVariant, FitsDynamicBody, FitsJsonBody, DictionaryOk, FitsLayout, LayoutOf, KindOf;
    if rows != 0 {
      if t.Nullable? {
        BodyIsData(t.inner, NullableInner(s), rows, c.inner);
      } else if t.Array? {
        BodyIsData(t.inner, ArrayInner(s), LastOf(0, c.offsets), c.inner);
      } else if t.Map? {
        BodyIsData(t.key, MapKey(s), LastOf(0, c.offsets), c.inner.first);
        BodyIsData(t.value, MapValue(s), LastOf(0, c.offsets), c.inner.rest);
      } else if t.Tuple? {
        ElemsAreData(t.elems, TupleElems(s), rows, c);
      } else {
        LayoutOfLeaf(t);
      }
    }
  }

  lemma {:induction false} ElemsAreData(ts: seq<ColumnType>, ss: seq<SkipState>, rows: nat, c: Column)
    requires AllDecodable(ts) && FitsElems(ts, ss, rows, c)
    ensures FitsDataElems(ts, rows, c)
    decreases c, 0, 0
  {
    if ts != [] {
      BodyIsData(ts[0], StateAt(ss, 0), rows, c.first);
      ElemsAreData(ts[1..], RestOf(ss), rows, c.rest);
    }
  }

  /** The state prefix of a decodable type is empty. */
  lemma {:induction false} PlainPrefix(t: ColumnType, p: Prefix, s: SkipState)
    requires Decodable(t) && FitsPrefix(t, p, s)
    ensures PrefixWire(p) == []
    decreases p, 1
  {
    hide FitsDynamic, FitsJson, NamesWire, PathsWire, KindOf;
    if t.Nullable? || t.Array? {
      PlainPrefix(t.inner, p.inner, s.inner);
    } else if t.Map? {
      PlainPrefix(t.key, p.first, s.key);
      PlainPrefix(t.value, p.rest, s.value);
    } else if t.Tuple? {
      PlainPrefixes(t.elems, p, s.elems);
    } else {
      LayoutOfLeaf(t);
    }
  }

  lemma {:induction false} PlainPrefixes(ts: seq<ColumnType>, p: Prefix, ss: seq<SkipState>)
    requires AllDecodable(ts) && FitsPrefixes(ts, p, ss)
    ensures PrefixWire(p) == []
    decreases p, 0
  {
    hide FitsDynamic, FitsJson, NamesWire, PathsWire;
    if ts != [] {
      PlainPrefix(ts[0], p.first, ss[0]);
      PlainPrefixes(ts[1..], p.rest, ss[1..]);
    }
  }

  // --------------------------------------------------------------------------
  // Counted subcolumns
  // --------------------------------------------------------------------------

  /** One column per type, each with its own number of rows. */
  ghost predicate FitsEach(ts: seq<ColumnType>, counts: seq<nat>, c: Column)
    requires |counts| == |ts|
    decreases |ts|
  {
    if ts == [] then c.Blank?
    else c.Join? && FitsData(ts[0], counts[0], c.first) && FitsEach(ts[1..], counts[1..], c.rest)
  }

  /** The values of each of these columns. */
  ghost function EachOf(ts: seq<ColumnType>, counts: seq<nat>, c: Column): (columns: seq<seq<Value>>)
    requires |counts| == |ts| && AllDecodable(ts) && FitsEach(ts, counts, c)
    ensures |columns| == |ts|
    ensures forall t :: 0 <= t < |ts| ==> |columns[t]| == counts[t]
    decreases |ts|
  {
    if ts == [] then [] else [ValuesOf(ts[0], counts[0], c.first)] + EachOf(ts[1..], counts[1..], c.rest)
  }

  lemma {:induction false} EachReads(mem: Memory, data: seq<byte>, pos: nat, ts: seq<ColumnType>, counts: seq<nat>, c: Column)
    requires |counts| == |ts| && AllDecodable(ts) && FitsEach(ts, counts, c) && Occurs(data, pos, Wire(c))
    requires forall i :: 0 <= i < |counts| ==> Roomy(mem, counts[i])
    ensures DecodeAll(mem, data, pos, ts, counts)
         == if AllUtf8(c) then Done(EachOf(ts, counts, c), pos + |Wire(c)|) else Failed(BadUtf8)
    decreases |ts|
  {
    hide Decode, FitsData, ValuesOf, Occurs;
    if ts != [] {
      OccursConcat(data, pos, Wire(c.first), Wire(c.rest));
      DecodeReads(mem, data, pos, ts[0], counts[0], c.first);
      EachReads(mem, data, pos + |Wire(c.first)|, ts[1..], counts[1..], c.rest);
    }
  }

  lemma {:induction false} CountedIsEach(ts: seq<ColumnType>, ss: seq<SkipState>, counts: seq<nat>, c: Column)
    requires |counts| == |ts| && AllDecodable(ts) && FitsCounted(ts, ss, counts, c)
    ensures FitsEach(ts, counts, c)
    decreases |ts|
  {
    hide FitsBody, FitsData;
    if ts != [] {
      BodyIsData(ts[0], StateAt(ss, 0), counts[0], c.first);
      CountedIsEach(ts[1..], RestOf(ss), counts[1..], c.rest);
    }
  }

  /** The types that the names of a Dynamic column stand for. */
  predicate NamesTypes(names: seq<string>, ts: seq<ColumnType>): (b: bool)
    ensures b ==> |names| == |ts|
  {
    |names| == |ts| && forall i :: 0 <= i < |names| ==> ParseType(names[i]) == Ok(ts[i])
  }

  lemma {:induction false} CountedNamesAreEach(names: seq<string>, ts: seq<ColumnType>, ss: seq<SkipState>, counts: seq<nat>, c: Column)
    requires |counts| == |ts| && NamesTypes(names, ts) && AllDecodable(ts) && FitsCountedNames(names, ss, counts, c)
    ensures FitsEach(ts, counts, c)
    decreases |ts|
  {
    hide FitsBody, FitsData, ParseType;
    if ts != [] {
      if counts[0] == 0 {
        BlankFits(ts[0], c.first);
      } else {
        BodyIsData(ts[0], StateAt(ss, 0), counts[0], c.first);
      }
      CountedNamesAreEach(names[1..], ts[1..], RestOf(ss), counts[1..], c.rest);
    }
  }

  lemma BlankFits(t: ColumnType, c: Column)
    requires c.Blank?
    ensures FitsData(t, 0, c)
  {
  }

  // --------------------------------------------------------------------------
  // Rows
  // --------------------------------------------------------------------------

  /** The rows that discriminators and subcolumns stand for. */
  ghost function RowsOf(discs: seq<nat>, columns: seq<seq<Value>>): (rows: seq<Row>)
    requires Enough(discs, columns)
    ensures |rows| == |discs|
  {
    seq(|discs|, i requires 0 <= i < |discs| => RowAt(discs, columns, i))
  }

  lemma ScatterIsRowsOf(discs: seq<nat>, columns: seq<seq<Value>>)
    requires Enough(discs, columns)
    ensures Scatter(discs, columns) == Ok(RowsOf(discs, columns))
  {
    hide Enough, RowAt;
    ScatterRows(discs, columns);
    assert Scatter(discs, columns).value == RowsOf(discs, columns);
  }

  /** Room for the rows, with their types and without. */
  predicate RoomyRows(mem: Memory, rows: nat)
  {
    Roomy(mem, rows) && rows <= mem.rows
  }

  /** Behind the discriminators the decoder never fails on an index: it returns
      the rows they stand for, or finds a string that is not UTF-8. */
  lemma ScatteredReads(mem: Memory, data: seq<byte>, pos: nat, ts: seq<ColumnType>, discs: seq<nat>, c: Column)
    requires RoomyRows(mem, |discs|)
    requires AllDecodable(ts) && FitsEach(ts, Counts(discs, |ts|), c) && Occurs(data, pos, Wire(c))
    ensures Enough(discs, EachOf(ts, Counts(discs, |ts|), c))
    ensures DecodeScattered(mem, data, pos, ts, discs)
         == if AllUtf8(c) then Done(RowsOf(discs, EachOf(ts, Counts(discs, |ts|), c)), pos + |Wire(c)|)
            else Failed(BadUtf8)
  {
    hide DecodeAll, EachOf, FitsEach, AllDecodable, RowsOf, Scatter, Occurs, CountOf;
    EachReads(mem, data, pos, ts, Counts(discs, |ts|), c);
    ScatterIsRowsOf(discs, EachOf(ts, Counts(discs, |ts|), c));
  }

  // --------------------------------------------------------------------------
  // Variant columns
  // --------------------------------------------------------------------------

  /** The rows of a Variant body over at least one type. */
  ghost function VariantRows(ts: seq<ColumnType>, rows: nat, c: Column): (out: seq<Row>)
    requires AllDecodable(ts) && PlainVariant(ts, rows, c)
    ensures |out| == rows
  {
    if c.Variants? then
      EachIsEnough(ts, c.discs, c.subs);
      RowsOf(c.discs, EachOf(ts, Counts(c.discs, |ts|), c.subs))
    else if c.disc < |ts| then
      MemberDecodable(ts, c.disc);
      CompactRows(c.disc, ValuesOf(ts[c.disc], c.count, c.sub), rows)
    else seq(rows, i => None)
  }

  /** A Variant body whose subcolumns are columns of their types. */
  ghost predicate PlainVariant(ts: seq<ColumnType>, rows: nat, c: Column)
  {
    if c.Variants? then |c.discs| == rows && FitsEach(ts, Counts(c.discs, |ts|), c.subs)
    else
      && c.Compact? && c.disc < U64_LIMIT && c.count <= rows && c.count < U64_LIMIT
      && (if c.disc < |ts| then FitsData(ts[c.disc], c.count, c.sub) else c.sub.Blank?)
  }

  lemma EachIsEnough(ts: seq<ColumnType>, discs: seq<nat>, c: Column)
    requires AllDecodable(ts) && FitsEach(ts, Counts(discs, |ts|), c)
    ensures Enough(discs, EachOf(ts, Counts(discs, |ts|), c))
  {
    hide AllDecodable, FitsEach, CountOf;
  }

  lemma {:induction false} MemberDecodable(ts: seq<ColumnType>, i: nat)
    requires AllDecodable(ts) && i < |ts|
    ensures Decodable(ts[i])
  {
    if i > 0 {
      MemberDecodable(ts[1..], i - 1);
    }
  }

  lemma VariantIsPlain(ts: seq<ColumnType>, ss: seq<SkipState>, rows: nat, c: Column)
    requires ts != [] && AllDecodable(ts) && FitsVariant(ts, ss, rows, c)
    ensures PlainVariant(ts, rows, c)
  {
    hide FitsBody, FitsData, FitsEach, FitsCounted, AllDecodable;
    if c.Variants? {
      CountedIsEach(ts, ss, Counts(c.discs, |ts|), c.subs);
    } else if c.disc < |ts| {
      MemberDecodable(ts, c.disc);
      BodyIsData(ts[c.disc], StateAt(ss, c.disc), c.count, c.sub);
    }
  }

  lemma VariantReads(mem: Memory, data: seq<byte>, pos: nat, ts: seq<ColumnType>, rows: nat, c: Column)
    requires RoomyRows(mem, rows) && AllDecodable(ts) && PlainVariant(ts, rows, c) && Occurs(data, pos, Wire(c))
    ensures DecodeVariant(mem, data, pos, ts, rows)
         == if AllUtf8(c) then Done(VariantRows(ts, rows, c), pos + |Wire(c)|) else Failed(BadUtf8)
  {
    hide VariantRows, DecodeVariant, FitsData, FitsEach;
    if c.Variants? {
      BasicReads(mem, data, pos, ts, rows, c);
    } else {
      CompactReads(mem, data, pos, ts, rows, c);
    }
  }

  lemma BasicReads(mem: Memory, data: seq<byte>, pos: nat, ts: seq<ColumnType>, rows: nat, c: Column)
    requires RoomyRows(mem, rows) && c.Variants? && AllDecodable(ts) && PlainVariant(ts, rows, c) && Occurs(data, pos, Wire(c))
    ensures DecodeVariant(mem, data, pos, ts, rows)
         == if AllUtf8(c) then Done(VariantRows(ts, rows, c), pos + |Wire(c)|) else Failed(BadUtf8)
  {
    hide FitsData, FitsEach, AllDecodable, DecodeScattered, RowsOf, EachOf, Counts;
    BasicParts(data, pos, c);
    ScatteredReads(mem, data, pos + 8 + rows, ts, c.discs, c.subs);
  }

  lemma BasicParts(data: seq<byte>, pos: nat, c: Column)
    requires c.Variants? && Occurs(data, pos, Wire(c))
    ensures U64At(data, pos) == Ok((0, pos + 8)) && Occurs(data, pos + 8, c.discs)
    ensures Occurs(data, pos + 8 + |c.discs|, Wire(c.subs)) && |Wire(c)| == 8 + |c.discs| + |Wire(c.subs)|
  {
    hide Occurs;
    OccursConcat(data, pos, U64Bytes(0), c.discs + Wire(c.subs));
    OccursConcat(data, pos + 8, c.discs, Wire(c.subs));
    U64Complete(data, pos, 0);
  }

  lemma CompactReads(mem: Memory, data: seq<byte>, pos: nat, ts: seq<ColumnType>, rows: nat, c: Column)
    requires RoomyRows(mem, rows) && c.Compact? && AllDecodable(ts) && PlainVariant(ts, rows, c) && Occurs(data, pos, Wire(c))
    ensures DecodeVariant(mem, data, pos, ts, rows)
         == if AllUtf8(c) then Done(VariantRows(ts, rows, c), pos + |Wire(c)|) else Failed(BadUtf8)
  {
    hide FitsData, AllDecodable, CompactRows, ValuesOf, Decode, Occurs, U64At;
    CompactParts(data, pos, c);
    if c.disc < |ts| {
      MemberDecodable(ts, c.disc);
      DecodeReads(mem, data, pos + 24, ts[c.disc], c.count, c.sub);
    }
  }

  lemma CompactParts(data: seq<byte>, pos: nat, c: Column)
    requires c.Compact? && c.disc < U64_LIMIT && c.count < U64_LIMIT && Occurs(data, pos, Wire(c))
    ensures U64At(data, pos) == Ok((1, pos + 8)) && U64At(data, pos + 8) == Ok((c.disc, pos + 16))
    ensures U64At(data, pos + 16) == Ok((c.count, pos + 24))
    ensures Occurs(data, pos + 24, Wire(c.sub)) && |Wire(c)| == 24 + |Wire(c.sub)|
  {
    hide Occurs, U64At;
    OccursConcat(data, pos, U64Bytes(1), U64Bytes(c.disc) + (U64Bytes(c.count) + Wire(c.sub)));
    OccursConcat(data, pos + 8, U64Bytes(c.disc), U64Bytes(c.count) + Wire(c.sub));
    OccursConcat(data, pos + 16, U64Bytes(c.count), Wire(c.sub));
    U64Complete(data, pos, 1);
    U64Complete(data, pos + 8, c.disc);
    U64Complete(data, pos + 16, c.count);
  }

  /** On a Variant column over decodable types that the skipper accepts, the
      decoder stops at the same place with the rows that stand there. */
  lemma VariantColumnsAgree(mem: Memory, data: seq<byte>, pos: nat, ts: seq<ColumnType>, rows: nat) returns (c: Column)
    requires RoomyRows(mem, rows) && pos <= |data| && ts != [] && rows != 0 && AllDecodable(ts) && SkipData(data, pos, Variant(ts), rows).Ok?
    ensures PlainVariant(ts, rows, c) && Occurs(data, pos, Wire(c))
    ensures DecodeVariant(mem, data, pos, ts, rows)
         == if AllUtf8(c) then Done(VariantRows(ts, rows, c), SkipData(data, pos, Variant(ts), rows).value)
            else Failed(BadUtf8)
  {
    hide FitsData, DecodeVariant, VariantRows, SkipData, Occurs, FitsVariant, FitsPrefixes, PlainVariant, AllDecodable, Wire;
    var whole := DataSound(data, pos, Variant(ts), rows);
    c := VariantBody(ts, rows, whole);
    VariantReads(mem, data, pos, ts, rows, c);
  }

  lemma VariantBody(ts: seq<ColumnType>, rows: nat, whole: Column) returns (c: Column)
    requires ts != [] && rows != 0 && AllDecodable(ts) && FitsData(Variant(ts), rows, whole)
    ensures PlainVariant(ts, rows, c) && Wire(whole) == Wire(c)
  {
    hide FitsVariant, FitsPrefixes, PlainVariant, AllDecodable, PrefixWire;
    var ss :| FitsPrefixes(ts, whole.prefix, ss) && FitsVariant(ts, ss, rows, whole.body);
    PlainPrefixes(ts, whole.prefix, ss);
    VariantIsPlain(ts, ss, rows, whole.body);
    c := whole.body;
  }

  /** A Variant over no type: the skipper stops behind the mode, the decoder
      goes on to read discriminators. */
  lemma EmptyVariantDiffers(mem: Memory, rows: nat)
    requires rows > 0
    ensures SkipData(U64Bytes(0), 0, Variant([]), rows) == Ok(8)
    ensures DecodeVariant(mem, U64Bytes(0), 0, [], rows) == Failed(Truncated)
  {
    var data: seq<byte> := U64Bytes(0);
    U64Complete(data, 0, 0);
    EmptyVariantSkips(data, rows);
  }

  lemma EmptyVariantSkips(data: seq<byte>, rows: nat)
    requires rows > 0 && U64At(data, 0) == Ok((0, 8))
    ensures SkipData(data, 0, Variant([]), rows) == Ok(8)
  {
    hide U64At;
    assert SkipPrefixes(data, 0, []) == Ok(([], 0));
  }

  /** On every buffer that the skipper accepts, the decoder stops where the
      skipper stops, or finds a string that is not UTF-8. */
  ghost predicate VariantFollows(mem: Memory, ts: seq<ColumnType>, rows: nat)
  {
    forall data: seq<byte>, pos: nat {:trigger SkipData(data, pos, Variant(ts), rows)}
      | pos <= |data| && SkipData(data, pos, Variant(ts), rows).Ok? ::
        StopsAt(DecodeVariant(mem, data, pos, ts, rows), SkipData(data, pos, Variant(ts), rows).value)
  }

  /** That is so exactly when there is a type and a row. */
  lemma VariantsAgree(mem: Memory, ts: seq<ColumnType>, rows: nat)
    requires RoomyRows(mem, rows) && AllDecodable(ts)
    ensures VariantFollows(mem, ts, rows) <==> ts != [] && rows != 0
  {
    hide SkipData, DecodeVariant, AllDecodable;
    if rows == 0 {
      NoVariantRows(mem, ts);
    } else if ts == [] {
      EmptyVariantDiffers(mem, rows);
    } else {
      forall data: seq<byte>, pos: nat | pos <= |data| && SkipData(data, pos, Variant(ts), rows).Ok?
        ensures StopsAt(DecodeVariant(mem, data, pos, ts, rows), SkipData(data, pos, Variant(ts), rows).value)
      {
        var c := VariantColumnsAgree(mem, data, pos, ts, rows);
      }
    }
  }

  /** Without rows the skipper stays, the decoder wants a mode. */
  lemma NoVariantRows(mem: Memory, ts: seq<ColumnType>)
    ensures SkipData([], 0, Variant(ts), 0) == Ok(0)
    ensures DecodeVariant(mem, [], 0, ts, 0) == Failed(Truncated)
  {
  }

  // --------------------------------------------------------------------------
  // Dynamic bodies
  // --------------------------------------------------------------------------

  /** `o` holds the rows that `discs` and the columns in `c` stand for and ends
      at `end`, or reports a string of `c` that is not UTF-8. */
  ghost predicate ReadsRows(o: Outcome<seq<Row>>, ts: seq<ColumnType>, discs: seq<nat>, c: Column, end: nat)
  {
    && AllDecodable(ts) && FitsEach(ts, Counts(discs, |ts|), c)
    && Enough(discs, EachOf(ts, Counts(discs, |ts|), c))
    && o == if AllUtf8(c) then Done(RowsOf(discs, EachOf(ts, Counts(discs, |ts|), c)), end) else Failed(BadUtf8)
  }

  /** On a flattened Dynamic body over decodable types that the skipper accepts
      the decoder reads the rows that stand there and stops at the same place. */
  lemma FlatBodiesAgree(mem: Memory, data: seq<byte>, pos: nat, d: DynState, ts: seq<ColumnType>, rows: nat)
    returns (discs: seq<nat>, c: Column)
    requires RoomyRows(mem, rows) && pos <= |data| && rows != 0 && ts != [] && NamesTypes(d.names, ts) && AllDecodable(ts)
    requires (d.version == 2 || d.version == 3) && SkipDynamicBody(data, pos, d, rows).Ok?
    ensures var at := pos + rows * DiscWidth(|ts|);
            at <= |data| && discs == Chunks(data[pos..at], DiscWidth(|ts|)) && Occurs(data, at, Wire(c))
    ensures ReadsRows(DecodeFlat(mem, data, pos, ts, rows), ts, discs, c, SkipDynamicBody(data, pos, d, rows).value)
  {
    hide AllDecodable, NamesTypes, DecodeScattered, FitsEach, ReadsRows, FitsCountedNames, SkipDynamicBody;
    hide Chunks, AllDiscs, DiscWidth, Counts, DecodeFlat;
    var body := DynamicBodySound(data, pos, d, rows);
    c := body.subs;
    discs :| FitsDiscs(d.version, |ts|, rows, body.discs, discs)
             && FitsCountedNames(d.names, d.states, Counts(discs, |ts|), c);
    CountedNamesAreEach(d.names, ts, d.states, Counts(discs, |ts|), c);
    OccursConcat(data, pos, body.discs, Wire(c));
    FlatHead(mem, data, pos, ts, rows, body.discs, discs);
    BodyRows(mem, data, pos + |body.discs|, ts, discs, c);
  }

  lemma FlatHead(mem: Memory, data: seq<byte>, pos: nat, ts: seq<ColumnType>, rows: nat, bytes: seq<byte>, discs: seq<nat>)
    requires |bytes| == rows * DiscWidth(|ts|) && Occurs(data, pos, bytes)
    requires discs == Chunks(bytes, DiscWidth(|ts|)) && AllDiscs(discs, |ts|, |ts|)
    ensures |discs| == rows
    ensures DecodeFlat(mem, data, pos, ts, rows) == DecodeScattered(mem, data, pos + |bytes|, ts, discs)
  {
    hide DecodeScattered, Chunks, AllDiscs, DiscWidth;
    ChunksCount(bytes, DiscWidth(|ts|), rows);
  }

  lemma BodyRows(mem: Memory, data: seq<byte>, pos: nat, ts: seq<ColumnType>, discs: seq<nat>, c: Column)
    requires RoomyRows(mem, |discs|) && AllDecodable(ts) && FitsEach(ts, Counts(discs, |ts|), c) && Occurs(data, pos, Wire(c))
    ensures ReadsRows(DecodeScattered(mem, data, pos, ts, discs), ts, discs, c, pos + |Wire(c)|)
  {
    hide AllDecodable, FitsEach, DecodeScattered, RowsOf, EachOf, Wire, Occurs, AllUtf8;
    ScatteredReads(mem, data, pos, ts, discs, c);
  }

  /** In the deprecated layout 255 is NULL to the decoder and, among more than
      255 types, an index to the skipper. The two count the same rows for every
      type exactly when that byte is not also an index. */
  lemma DeprecatedCountsAgree(discs: seq<nat>, types: nat)
    ensures Counts(Widen(discs, types), types) == Counts(discs, types) <==> types <= 255 || 255 !in discs
  {
    forall t | 0 <= t < types && t != 255
      ensures CountOf(Widen(discs, types), t) == CountOf(discs, t)
    {
      WidenKeeps(discs, types, t);
    }
    if types > 255 {
      WidenDrops(discs, types);
      Member(discs, 255);
      assert Counts(discs, types)[255] == CountOf(discs, 255);
      assert Counts(Widen(discs, types), types)[255] == 0;
    }
  }

  lemma {:induction false} WidenKeeps(discs: seq<nat>, types: nat, t: nat)
    requires t < types && t != 255
    ensures CountOf(Widen(discs, types), t) == CountOf(discs, t)
  {
    if discs != [] {
      var front := discs[..|discs| - 1];
      assert Widen(discs, types)[..|discs| - 1] == Widen(front, types);
      WidenKeeps(front, types, t);
    }
  }

  lemma {:induction false} WidenDrops(discs: seq<nat>, types: nat)
    requires types > 255
    ensures CountOf(Widen(discs, types), 255) == 0
  {
    if discs != [] {
      var front := discs[..|discs| - 1];
      assert Widen(discs, types)[..|discs| - 1] == Widen(front, types);
      WidenDrops(front, types);
    }
  }

  lemma {:induction false} Member(s: seq<nat>, x: nat)
    ensures CountOf(s, x) > 0 <==> x in s
  {
    if s != [] {
      Member(s[..|s| - 1], x);
      assert s == s[..|s| - 1] + [s[|s| - 1]];
    }
  }

  /** On a deprecated Dynamic body without a doubtful 255 the two agree. */
  lemma DeprecatedBodiesAgree(mem: Memory, data: seq<byte>, pos: nat, d: DynState, ts: seq<ColumnType>, rows: nat) returns (c: Column)
    requires RoomyRows(mem, rows) && pos <= |data| && rows != 0 && ts != [] && NamesTypes(d.names, ts) && AllDecodable(ts)
    requires d.version == 1 && SkipDynamicBody(data, pos, d, rows).Ok?
    requires |ts| <= 255 || (pos + rows <= |data| && 255 !in data[pos..pos + rows])
    ensures pos + rows <= |data| && Occurs(data, pos + rows, Wire(c))
    ensures ReadsRows(DecodeDeprecated(mem, data, pos, ts, rows), ts, Widen(data[pos..pos + rows], |ts|), c,
                      SkipDynamicBody(data, pos, d, rows).value)
  {
    hide AllDecodable, NamesTypes, DecodeScattered, FitsEach, ReadsRows, FitsCountedNames, SkipDynamicBody, Occurs;
    hide Counts, Widen, DecodeDeprecated;
    var body := DynamicBodySound(data, pos, d, rows);
    c := body.subs;
    var discs :| FitsDiscs(1, |ts|, rows, body.discs, discs)
                 && FitsCountedNames(d.names, d.states, Counts(discs, |ts|), c);
    CountedNamesAreEach(d.names, ts, d.states, Counts(discs, |ts|), c);
    OccursConcat(data, pos, body.discs, Wire(c));
    DeprecatedHead(mem, data, pos, ts, rows, body.discs);
    DeprecatedCountsAgree(body.discs, |ts|);
    BodyRows(mem, data, pos + |body.discs|, ts, Widen(body.discs, |ts|), c);
  }

  lemma DeprecatedHead(mem: Memory, data: seq<byte>, pos: nat, ts: seq<ColumnType>, rows: nat, bytes: seq<byte>)
    requires |bytes| == rows && Occurs(data, pos, bytes) && AllDiscs(bytes, |ts|, 255)
    ensures pos + rows <= |data| && data[pos..pos + rows] == bytes
    ensures DecodeDeprecated(mem, data, pos, ts, rows) == DecodeScattered(mem, data, pos + rows, ts, Widen(bytes, |ts|))
  {
    hide DecodeScattered, AllDiscs, Widen;
  }

  /** A Dynamic body over no type: the skipper stays, the decoder reads a byte
      per row. */
  lemma TypelessDynamicDiffers(mem: Memory, rows: nat)
    requires rows > 0
    ensures SkipDynamicBody([], 0, DynState(2, [], []), rows) == Ok(0)
    ensures DecodeFlat(mem, [], 0, [], rows) == Failed(Truncated)
  {
    assert rows * DiscWidth(0) == rows;
  }

  /** The decoder of a Dynamic body, by version. */
  function DecodeDynamic(mem: Memory, data: seq<byte>, pos: nat, version: nat, ts: seq<ColumnType>, rows: nat): (o: Outcome<seq<Row>>)
    requires pos <= |data|
  {
    if version == 1 then DecodeDeprecated(mem, data, pos, ts, rows) else DecodeFlat(mem, data, pos, ts, rows)
  }

  /** As for Variant columns. */
  ghost predicate DynamicFollows(mem: Memory, d: DynState, ts: seq<ColumnType>, rows: nat)
  {
    forall data: seq<byte>, pos: nat {:trigger SkipDynamicBody(data, pos, d, rows)}
      | pos <= |data| && SkipDynamicBody(data, pos, d, rows).Ok? ::
        StopsAt(DecodeDynamic(mem, data, pos, d.version, ts, rows), SkipDynamicBody(data, pos, d, rows).value)
  }

  /** The two agree on all Dynamic bodies exactly when there is a type or no row.
      In the deprecated layout this is said of up to 255 types. */
  lemma DynamicsAgree(mem: Memory, d: DynState, ts: seq<ColumnType>, rows: nat)
    requires RoomyRows(mem, rows) && NamesTypes(d.names, ts) && AllDecodable(ts)
    requires d.version == 2 || d.version == 3 || (d.version == 1 && |ts| <= 255)
    ensures DynamicFollows(mem, d, ts, rows) <==> ts != [] || rows == 0
  {
    hide AllDecodable, NamesTypes, SkipDynamicBody, DecodeDynamic;
    if ts == [] && rows != 0 {
      TypelessParts(mem, d, rows);
    } else {
      forall data: seq<byte>, pos: nat | pos <= |data| && SkipDynamicBody(data, pos, d, rows).Ok?
        ensures StopsAt(DecodeDynamic(mem, data, pos, d.version, ts, rows), SkipDynamicBody(data, pos, d, rows).value)
      {
        DynamicStops(mem, data, pos, d, ts, rows);
      }
    }
  }

  lemma DynamicStops(mem: Memory, data: seq<byte>, pos: nat, d: DynState, ts: seq<ColumnType>, rows: nat)
    requires pos <= |data| && RoomyRows(mem, rows) && NamesTypes(d.names, ts) && AllDecodable(ts)
    requires d.version == 2 || d.version == 3 || (d.version == 1 && |ts| <= 255)
    requires (ts != [] || rows == 0) && SkipDynamicBody(data, pos, d, rows).Ok?
    ensures StopsAt(DecodeDynamic(mem, data, pos, d.version, ts, rows), SkipDynamicBody(data, pos, d, rows).value)
  {
    hide AllDecodable, NamesTypes, SkipDynamicBody, DecodeFlat, DecodeDeprecated, FitsEach, EachOf, Counts, Enough;
    if rows == 0 {
      NoDynamicRows(mem, data, pos, d, ts);
    } else if d.version == 1 {
      var c := DeprecatedBodiesAgree(mem, data, pos, d, ts, rows);
    } else {
      var discs, c := FlatBodiesAgree(mem, data, pos, d, ts, rows);
    }
  }

  lemma NoDynamicRows(mem: Memory, data: seq<byte>, pos: nat, d: DynState, ts: seq<ColumnType>)
    requires pos <= |data| && AllDecodable(ts)
    ensures SkipDynamicBody(data, pos, d, 0) == Ok(pos)
    ensures DecodeDynamic(mem, data, pos, d.version, ts, 0) == Done([], pos)
  {
    hide AllDecodable, DecodeScattered, DiscWidth;
    NoScatteredRows(mem, data, pos, ts);
    assert data[pos..pos] == [] && Widen([], |ts|) == [] && Chunks([], DiscWidth(|ts|)) == [];
  }

  lemma NoScatteredRows(mem: Memory, data: seq<byte>, pos: nat, ts: seq<ColumnType>)
    requires pos <= |data| && AllDecodable(ts)
    ensures DecodeScattered(mem, data, pos, ts, []) == Done([], pos)
  {
    hide AllDecodable, DecodeAll;
    DecodeAllNoRows(mem, data, pos, ts);
    assert Counts([], |ts|) == Same(|ts|, 0);
  }

  lemma TypelessParts(mem: Memory, d: DynState, rows: nat)
    requires rows > 0 && d.names == [] && d.version in {1, 2, 3}
    ensures !DynamicFollows(mem, d, [], rows)
  {
    assert SkipDynamicBody([], 0, d, rows) == Ok(0);
    assert DecodeDynamic(mem, [], 0, d.version, [], rows) == Failed(Truncated) by {
      TypelessDynamicDiffers(mem, rows);
    }
    assert !StopsAt(DecodeDynamic(mem, [], 0, d.version, [], rows), 0);
  }

  // --------------------------------------------------------------------------
  // Whole round trips
  // --------------------------------------------------------------------------

  /** Subcolumns that hold the rows grouped by type. */
  ghost predicate Holds(ts: seq<ColumnType>, discs: seq<nat>, rows: seq<Row>, c: Column)
  {
    && AllDecodable(ts) && Marks(discs, rows, |ts|) && FitsEach(ts, Counts(discs, |ts|), c) && AllUtf8(c)
    && EachOf(ts, Counts(discs, |ts|), c) == Gather(rows, |ts|)
  }

  lemma GroupedReads(mem: Memory, data: seq<byte>, pos: nat, ts: seq<ColumnType>, discs: seq<nat>, rows: seq<Row>, c: Column)
    requires RoomyRows(mem, |discs|) && Holds(ts, discs, rows, c) && Occurs(data, pos, Wire(c))
    ensures DecodeScattered(mem, data, pos, ts, discs) == Done(rows, pos + |Wire(c)|)
  {
    hide DecodeAll, EachOf, FitsEach, AllDecodable, Scatter, Occurs, CountOf, Wire, AllUtf8, Marks, Gather;
    EachReads(mem, data, pos, ts, Counts(discs, |ts|), c);
    GatherThenScatter(discs, rows, |ts|);
  }

  /** Rows written as a Variant column, grouped by type behind their
      discriminators, are read back in order. */
  lemma VariantRoundTrip(mem: Memory, data: seq<byte>, pos: nat, ts: seq<ColumnType>, discs: seq<byte>, rows: seq<Row>, c: Column)
    requires RoomyRows(mem, |discs|) && Holds(ts, discs, rows, c) && Occurs(data, pos, Wire(Variants(discs, c)))
    ensures DecodeVariant(mem, data, pos, ts, |rows|) == Done(rows, pos + |Wire(Variants(discs, c))|)
  {
    hide Holds, DecodeScattered, Occurs;
    BasicParts(data, pos, Variants(discs, c));
    GroupedReads(mem, data, pos + 8 + |discs|, ts, discs, rows, c);
    assert |discs| == |rows| by { HoldsCount(ts, discs, rows, c); }
    BasicHead(mem, data, pos, ts, discs);
  }

  lemma HoldsCount(ts: seq<ColumnType>, discs: seq<nat>, rows: seq<Row>, c: Column)
    requires Holds(ts, discs, rows, c)
    ensures |discs| == |rows|
  {
    hide AllDecodable, FitsEach, EachOf, Gather, AllUtf8;
  }

  lemma BasicHead(mem: Memory, data: seq<byte>, pos: nat, ts: seq<ColumnType>, discs: seq<byte>)
    requires pos <= |data| && U64At(data, pos) == Ok((0, pos + 8)) && Occurs(data, pos + 8, discs)
    ensures DecodeVariant(mem, data, pos, ts, |discs|) == DecodeScattered(mem, data, pos + 8 + |discs|, ts, discs)
  {
    hide DecodeScattered, U64At;
  }

  /** Rows written as a flattened Dynamic body are read back in order. */
  lemma FlatRoundTrip(mem: Memory, data: seq<byte>, pos: nat, ts: seq<ColumnType>, discs: seq<nat>, rows: seq<Row>, c: Column)
    requires RoomyRows(mem, |discs|) && |ts| < U64_LIMIT && AllDiscs(discs, |ts|, |ts|) && Holds(ts, discs, rows, c)
    requires Occurs(data, pos, EncodeDiscs(discs, DiscWidth(|ts|)) + Wire(c))
    ensures DecodeFlat(mem, data, pos, ts, |rows|) == Done(rows, pos + |EncodeDiscs(discs, DiscWidth(|ts|)) + Wire(c)|)
  {
    hide Holds, DecodeScattered, DecodeFlat, Occurs, AllDiscs, EncodeDiscs, DiscWidth;
    var bytes := EncodeDiscs(discs, DiscWidth(|ts|));
    OccursConcat(data, pos, bytes, Wire(c));
    WidthLossless(discs, |ts|);
    HoldsCount(ts, discs, rows, c);
    FlatHead(mem, data, pos, ts, |rows|, bytes, discs);
    GroupedReads(mem, data, pos + |bytes|, ts, discs, rows, c);
  }
}
