/** `shared/skip_column.rs` with its loops: every function advances a position
    step by step and is proved to compute what module SkipSpec says. */
module SkipColumn {
  import opened Bytes
  import opened Limits
  import opened Varint
  import Utf8
  import opened ColumnTypes
  import opened TypeText
  import opened SkipSpec

  // --------------------------------------------------------------------------
  // Lists built item by item
  // --------------------------------------------------------------------------

  /** Puts the items read so far in front of those still to be read. */
  function After<T>(xs: seq<T>, r: Result<(seq<T>, nat)>): (q: Result<(seq<T>, nat)>)
  {
    if r.Ok? then Ok((xs + r.value.0, r.value.1)) else r
  }

  lemma AfterNone<T>(r: Result<(seq<T>, nat)>)
    ensures After([], r) == r
  {
    if r.Ok? {
      assert [] + r.value.0 == r.value.0;
    }
  }

  lemma AfterStep<T>(xs: seq<T>, x: T, r: Result<(seq<T>, nat)>)
    ensures After(xs, After([x], r)) == After(xs + [x], r)
  {
    if r.Ok? {
      assert xs + ([x] + r.value.0) == (xs + [x]) + r.value.0;
    }
  }

  // --------------------------------------------------------------------------
  // Flat pieces
  // --------------------------------------------------------------------------

  /** `skip_string_rows`. */
  method SkipStringRows(buf: seq<byte>, start: nat, rows: nat) returns (r: Result<nat>)
    requires start <= |buf|
    ensures r == SkipStrings(buf, start, rows)
  {
    hide VarintAt;
    var pos: nat := start;
    for i := 0 to rows
      invariant pos <= |buf|
      invariant SkipStrings(buf, start, rows) == SkipStrings(buf, pos, rows - i)
    {
      var n := ParseVarint(buf, pos);
      if n.Err? { return Err(n.error); }
      var len := StringLen(n.value.0);
      if len.Err? { return Err(len.error); }
      var end := Advance(buf, n.value.1, len.value);
      if end.Err? { return Err(end.error); }
      pos := end.value;
    }
    return Ok(pos);
  }

  /** `skip_offsets`. */
  method SkipOffsetRows(buf: seq<byte>, pos: nat, rows: nat) returns (r: Result<(nat, nat)>)
    ensures r == SkipOffsets(buf, pos, rows)
  {
    var end := AdvanceCells(buf, pos, rows, 8);
    if end.Err? { return Err(end.error); }
    var total := 0;
    for i := 0 to rows
      invariant OffsetsFrom(buf, pos, rows, 0) == OffsetsFrom(buf, pos + 8 * i, rows - i, total)
    {
      var next := NextOffset(total, LeValue(buf[pos + 8 * i..pos + 8 * i + 8]));
      if next.Err? { return Err(next.error); }
      total := next.value;
    }
    return Ok((total, end.value));
  }

  /** The loop of `read_type_names`. */
  method ReadTypeNames(buf: seq<byte>, start: nat) returns (r: Result<(seq<string>, nat)>)
    requires start <= |buf|
    ensures r == ReadNameList(buf, start)
  {
    hide VarintAt, Utf8.Decode;
    var n := ParseVarint(buf, start);
    if n.Err? { return Err(n.error); }
    var count := ItemCount(n.value.0);
    if count.Err? { return Err(count.error); }
    var names: seq<string> := [];
    var pos: nat := n.value.1;
    AfterNone(ReadNames(buf, pos, count.value));
    for i := 0 to count.value
      invariant pos <= |buf|
      invariant ReadNameList(buf, start) == After(names, ReadNames(buf, pos, count.value - i))
    {
      NamesStep(buf, pos, count.value - i);
      var len := ParseVarint(buf, pos);
      if len.Err? { return Err(len.error); }
      var capped := StringLen(len.value.0);
      if capped.Err? { return Err(capped.error); }
      var end := Advance(buf, len.value.1, capped.value);
      if end.Err? { return Err(end.error); }
      var name := Utf8.Decode(buf[len.value.1..end.value]);
      if name.None? { return Err(BadUtf8); }
      AfterStep(names, name.value, ReadNames(buf, end.value, count.value - i - 1));
      names := names + [name.value];
      pos := end.value;
    }
    assert names + [] == names;
    return Ok((names, pos));
  }

  lemma NamesStep(buf: seq<byte>, pos: nat, count: nat)
    requires pos <= |buf| && count > 0
    ensures ReadNames(buf, pos, count) ==
            var n := VarintAt(buf, pos);
            if n.Err? then Err(n.error)
            else if StringLen(n.value.0).Err? then Err(TooLarge)
            else if n.value.1 + n.value.0 > |buf| then Err(Truncated)
            else
              var end := n.value.1 + n.value.0;
              var name := Utf8.Decode(buf[n.value.1..end]);
              if name.None? then Err(BadUtf8) else After([name.value], ReadNames(buf, end, count - 1))
  {
    hide VarintAt, Utf8.Decode;
  }

  /** The counting loops: one counter per type, other values left alone. */
  method CountDiscriminators(discs: seq<nat>, types: nat) returns (counts: seq<nat>)
    ensures counts == Counts(discs, types)
  {
    var cells := new nat[types](_ => 0);
    for i := 0 to |discs|
      invariant forall k :: 0 <= k < types ==> cells[k] == CountOf(discs[..i], k)
    {
      assert discs[..i + 1][..i] == discs[..i];
      if discs[i] < types {
        cells[discs[i]] := cells[discs[i]] + 1;
      }
    }
    assert discs[..|discs|] == discs;
    counts := cells[..];
  }

  /** The discriminator scans of `skip_dynamic_body`. */
  method ScanDiscriminators(buf: seq<byte>, pos: nat, version: nat, types: nat, rows: nat)
    returns (r: Result<(seq<nat>, nat)>)
    requires pos <= |buf|
    ensures r.Ok? <==> ReadDiscs(buf, pos, version, types, rows).Ok?
    ensures r.Err? ==> r.error == ReadDiscs(buf, pos, version, types, rows).error
    ensures r.Ok? ==> var (discs, end) := ReadDiscs(buf, pos, version, types, rows).value;
                      r.value == (Counts(discs, types), end)
  {
    hide LeValue;
    if version != 1 && version != 2 && version != 3 {
      return Err(UnknownVersion);
    }
    var width := if version == 1 then 1 else DiscWidth(types);
    var nullMark := if version == 1 then 255 else types;
    var end := if version == 1 then Advance(buf, pos, rows) else AdvanceCells(buf, pos, rows, width);
    if end.Err? { return Err(end.error); }
    var bytes := buf[pos..end.value];
    var discs: seq<nat> := if version == 1 then bytes else Chunks(bytes, width);
    for i := 0 to |discs|
      invariant forall k :: 0 <= k < i ==> discs[k] < types || discs[k] == nullMark
    {
      if discs[i] >= types && discs[i] != nullMark {
        assert !AllDiscs(discs, types, nullMark);
        return Err(BadDiscriminator);
      }
    }
    assert AllDiscs(discs, types, nullMark);
    var counts := CountDiscriminators(discs, types);
    return Ok((counts, end.value));
  }

  // --------------------------------------------------------------------------
  // State prefixes
  // --------------------------------------------------------------------------

  lemma PrefixesStep(buf: seq<byte>, pos: nat, ts: seq<ColumnType>)
    requires pos <= |buf| && ts != []
    ensures SkipPrefixes(buf, pos, ts) ==
            var r := SkipPrefix(buf, pos, ts[0]);
            if r.Err? then Err(r.error)
            else After([r.value.0], SkipPrefixes(buf, r.value.1, ts[1..]))
  {
    hide SkipPrefix;
  }

  lemma NamedStep(buf: seq<byte>, pos: nat, names: seq<string>)
    requires pos <= |buf| && names != []
    ensures SkipNamed(buf, pos, names) ==
            var t := ParseType(names[0]);
            if t.Err? then Err(t.error)
            else
              var r := SkipPrefix(buf, pos, t.value);
              if r.Err? then Err(r.error)
              else After([r.value.0], SkipNamed(buf, r.value.1, names[1..]))
  {
    hide SkipPrefix, ParseType;
  }

  /** `skip_state_prefix`. */
  method SkipStatePrefix(buf: seq<byte>, pos: nat, t: ColumnType) returns (r: Result<(SkipState, nat)>)
    requires pos <= |buf|
    ensures r == SkipPrefix(buf, pos, t)
    decreases |buf| - pos, TypeSize(t)
  {
    hide SkipPrefixes, SkipDynamicState, SkipJsonState;
    if t.Nullable? || t.Array? || t.LowCardinality? {
      var s := SkipStatePrefix(buf, pos, t.inner);
      if s.Err? { return Err(s.error); }
      var state := if t.Nullable? then NullableState(s.value.0)
                   else if t.Array? then ArrayState(s.value.0) else LowCardinalityState(s.value.0);
      return Ok((state, s.value.1));
    } else if t.Map? {
      var k := SkipStatePrefix(buf, pos, t.key);
      if k.Err? { return Err(k.error); }
      var v := SkipStatePrefix(buf, k.value.1, t.value);
      if v.Err? { return Err(v.error); }
      return Ok((MapState(k.value.0, v.value.0), v.value.1));
    } else if t.Tuple? {
      var ss := SkipStatePrefixes(buf, pos, t.elems);
      if ss.Err? { return Err(ss.error); }
      return Ok((TupleState(ss.value.0), ss.value.1));
    } else if t.Variant? {
      var ss := SkipStatePrefixes(buf, pos, t.types);
      if ss.Err? { return Err(ss.error); }
      return Ok((VariantState(ss.value.0), ss.value.1));
    } else if t.Dynamic? {
      var d := SkipDynamicPrefix(buf, pos);
      if d.Err? { return Err(d.error); }
      return Ok((DynamicState(d.value.0), d.value.1));
    } else if t.JSON? {
      r := SkipJsonPrefix(buf, pos);
    } else {
      return Ok((NoState, pos));
    }
  }

  /** The loops over tuple elements and variant members. */
  method SkipStatePrefixes(buf: seq<byte>, start: nat, ts: seq<ColumnType>) returns (r: Result<(seq<SkipState>, nat)>)
    requires start <= |buf|
    ensures r == SkipPrefixes(buf, start, ts)
    decreases |buf| - start, TypesSize(ts)
  {
    hide SkipPrefix;
    var states: seq<SkipState> := [];
    var pos: nat := start;
    AfterNone(SkipPrefixes(buf, start, ts));
    for i := 0 to |ts|
      invariant start <= pos <= |buf|
      invariant SkipPrefixes(buf, start, ts) == After(states, SkipPrefixes(buf, pos, ts[i..]))
    {
      PrefixesStep(buf, pos, ts[i..]);
      MemberSize(ts, i);
      var s := SkipStatePrefix(buf, pos, ts[i]);
      if s.Err? { return Err(s.error); }
      assert ts[i..][1..] == ts[i + 1..];
      AfterStep(states, s.value.0, SkipPrefixes(buf, s.value.1, ts[i + 1..]));
      states := states + [s.value.0];
      pos := s.value.1;
    }
    assert states + [] == states;
    return Ok((states, pos));
  }

  /** `skip_dynamic_state`. */
  method SkipDynamicPrefix(buf: seq<byte>, pos: nat) returns (r: Result<(DynState, nat)>)
    requires pos <= |buf|
    ensures r == SkipDynamicState(buf, pos)
    decreases |buf| - pos, 0
  {
    hide SkipPrefix, LeValue, ReadNameList, VarintAt;
    var version := U64At(buf, pos);
    if version.Err? { return Err(version.error); }
    var names := ReadVersionedNames(buf, pos + 8, version.value.0);
    if names.Err? { return Err(names.error); }
    var states := SkipNamedPrefixes(buf, names.value.1, names.value.0);
    if states.Err? { return Err(states.error); }
    return Ok((DynState(version.value.0, names.value.0, states.value.0), states.value.1));
  }

  method ReadVersionedNames(buf: seq<byte>, pos: nat, version: nat) returns (r: Result<(seq<string>, nat)>)
    requires pos <= |buf|
    ensures r == ReadDynamicNames(buf, pos, version)
  {
    hide LeValue, ReadNameList, VarintAt;
    if version == 0 {
      return Ok(([], pos));
    } else if version == 1 {
      var maxTypes := ParseVarint(buf, pos);
      if maxTypes.Err? { return Err(maxTypes.error); }
      var names := ReadTypeNames(buf, maxTypes.value.1);
      if names.Err? { return Err(names.error); }
      var variantVersion := U64At(buf, names.value.1);
      if variantVersion.Err? { return Err(variantVersion.error); }
      return Ok((names.value.0, variantVersion.value.1));
    } else if version == 2 || version == 3 {
      r := ReadTypeNames(buf, pos);
    } else {
      return Err(UnknownVersion);
    }
  }

  /** The loop over the type names of a Dynamic state. */
  method SkipNamedPrefixes(buf: seq<byte>, start: nat, names: seq<string>) returns (r: Result<(seq<SkipState>, nat)>)
    requires start <= |buf|
    ensures r == SkipNamed(buf, start, names)
    decreases |buf| - start + 1, |names|
  {
    hide SkipPrefix, ParseType;
    var states: seq<SkipState> := [];
    var pos: nat := start;
    AfterNone(SkipNamed(buf, start, names));
    for i := 0 to |names|
      invariant start <= pos <= |buf|
      invariant SkipNamed(buf, start, names) == After(states, SkipNamed(buf, pos, names[i..]))
    {
      NamedStep(buf, pos, names[i..]);
      var t := ParseType(names[i]);
      if t.Err? { return Err(t.error); }
      var s := SkipStatePrefix(buf, pos, t.value);
      if s.Err? { return Err(s.error); }
      assert names[i..][1..] == names[i + 1..];
      AfterStep(states, s.value.0, SkipNamed(buf, s.value.1, names[i + 1..]));
      states := states + [s.value.0];
      pos := s.value.1;
    }
    assert states + [] == states;
    return Ok((states, pos));
  }

  /** `skip_json_state`. */
  method SkipJsonPrefix(buf: seq<byte>, pos: nat) returns (r: Result<(SkipState, nat)>)
    requires pos <= |buf|
    ensures r == SkipJsonState(buf, pos)
    decreases |buf| - pos, 0
  {
    hide LeValue, VarintAt, SkipJsonPaths;
    var v := U64At(buf, pos);
    if v.Err? { return Err(v.error); }
    var version, p := v.value.0, v.value.1;
    if version == 1 || version == 4 {
      return Ok((JsonState(version, []), p));
    } else if version == 0 {
      var maxPaths := ParseVarint(buf, p);
      if maxPaths.Err? { return Err(maxPaths.error); }
      p := maxPaths.value.1;
    } else if version != 3 {
      return Err(UnknownVersion);
    }
    var ds := SkipJsonPathStates(buf, p);
    if ds.Err? { return Err(ds.error); }
    return Ok((JsonState(version, ds.value.0), ds.value.1));
  }

  lemma DynamicStatesStep(buf: seq<byte>, pos: nat, count: nat)
    requires pos <= |buf| && count > 0
    ensures SkipDynamicStates(buf, pos, count) ==
            var r := SkipDynamicState(buf, pos);
            if r.Err? then Err(r.error)
            else After([r.value.0], SkipDynamicStates(buf, r.value.1, count - 1))
  {
    hide SkipDynamicState;
  }

  method SkipJsonPathStates(buf: seq<byte>, start: nat) returns (r: Result<(seq<DynState>, nat)>)
    requires start <= |buf|
    ensures r == SkipJsonPaths(buf, start)
    decreases |buf| - start + 2, 0
  {
    hide VarintAt, SkipDynamicState, SkipStrings;
    var n := ParseVarint(buf, start);
    if n.Err? { return Err(n.error); }
    var count := ItemCount(n.value.0);
    if count.Err? { return Err(count.error); }
    var names := SkipStringRows(buf, n.value.1, count.value);
    if names.Err? { return Err(names.error); }
    var states: seq<DynState> := [];
    var pos: nat := names.value;
    AfterNone(SkipDynamicStates(buf, pos, count.value));
    for i := 0 to count.value
      invariant start <= pos <= |buf|
      invariant SkipJsonPaths(buf, start) == After(states, SkipDynamicStates(buf, pos, count.value - i))
    {
      DynamicStatesStep(buf, pos, count.value - i);
      var d := SkipDynamicPrefix(buf, pos);
      if d.Err? { return Err(d.error); }
      AfterStep(states, d.value.0, SkipDynamicStates(buf, d.value.1, count.value - i - 1));
      states := states + [d.value.0];
      pos := d.value.1;
    }
    assert states + [] == states;
    return Ok((states, pos));
  }

  // --------------------------------------------------------------------------
  // Bodies
  // --------------------------------------------------------------------------

  /** The states from index `i` on. */
  function StatesFrom(ss: seq<SkipState>, i: nat): (rest: seq<SkipState>)
  {
    if i <= |ss| then ss[i..] else []
  }

  lemma StatesFromStep(ss: seq<SkipState>, i: nat)
    ensures StateAt(StatesFrom(ss, i), 0) == StateAt(ss, i)
    ensures RestOf(StatesFrom(ss, i)) == StatesFrom(ss, i + 1)
  {
  }

  lemma ElemsStep(buf: seq<byte>, pos: nat, ts: seq<ColumnType>, ss: seq<SkipState>, i: nat, rows: nat)
    requires pos <= |buf| && i < |ts|
    ensures SkipElems(buf, pos, ts[i..], StatesFrom(ss, i), rows) ==
            var r := SkipBody(buf, pos, ts[i], StateAt(ss, i), rows);
            if r.Err? then r else SkipElems(buf, r.value, ts[i + 1..], StatesFrom(ss, i + 1), rows)
  {
    hide SkipBody, StatesFrom, StateAt, RestOf;
    StatesFromStep(ss, i);
    assert ts[i..][1..] == ts[i + 1..];
  }

  lemma CountedStep(buf: seq<byte>, pos: nat, ts: seq<ColumnType>, ss: seq<SkipState>, i: nat, counts: seq<nat>)
    requires pos <= |buf| && i < |ts| == |counts|
    ensures SkipCounted(buf, pos, ts[i..], StatesFrom(ss, i), counts[i..]) ==
            var r := SkipBody(buf, pos, ts[i], StateAt(ss, i), counts[i]);
            if r.Err? then r else SkipCounted(buf, r.value, ts[i + 1..], StatesFrom(ss, i + 1), counts[i + 1..])
  {
    hide SkipBody, StatesFrom, StateAt, RestOf;
    StatesFromStep(ss, i);
    assert ts[i..][1..] == ts[i + 1..] && counts[i..][1..] == counts[i + 1..];
  }

  lemma CountedNamesStep(buf: seq<byte>, pos: nat, names: seq<string>, ss: seq<SkipState>, i: nat, counts: seq<nat>)
    requires pos <= |buf| && i < |names| == |counts|
    ensures SkipCountedNames(buf, pos, names[i..], StatesFrom(ss, i), counts[i..]) ==
            if counts[i] == 0 then SkipCountedNames(buf, pos, names[i + 1..], StatesFrom(ss, i + 1), counts[i + 1..])
            else
              var t := ParseType(names[i]);
              if t.Err? then Err(t.error)
              else
                var r := SkipBody(buf, pos, t.value, StateAt(ss, i), counts[i]);
                if r.Err? then r
                else SkipCountedNames(buf, r.value, names[i + 1..], StatesFrom(ss, i + 1), counts[i + 1..])
  {
    hide SkipBody, StatesFrom, StateAt, RestOf, ParseType;
    StatesFromStep(ss, i);
    assert names[i..][1..] == names[i + 1..] && counts[i..][1..] == counts[i + 1..];
  }

  /** Nothing is skipped for zero rows, so the loops may leave such members out. */
  lemma NoRows(buf: seq<byte>, pos: nat, t: ColumnType, s: SkipState)
    requires pos <= |buf|
    ensures SkipBody(buf, pos, t, s, 0) == Ok(pos)
  {
  }

  /** `skip_body_raw`. */
  method SkipBodyRaw(buf: seq<byte>, pos: nat, t: ColumnType, s: SkipState, rows: nat) returns (r: Result<nat>)
    requires pos <= |buf|
    ensures r == SkipBody(buf, pos, t, s, rows)
    decreases StateSize(s), TypeSize(t), 2
  {
    hide SkipBody, SkipOffsets, SkipMapBody, SkipElems, SkipDictionary, SkipJsonBody, SkipDynamicBody, SkipVariantBody, SkipPoint, SkipLayout, LayoutOf;
    BodyCases(buf, pos, t, s, rows);
    if rows == 0 {
      return Ok(pos);
    }
    if t.Nullable? {
      var p := Advance(buf, pos, rows);
      if p.Err? { return p; }
      r := SkipBodyRaw(buf, p.value, t.inner, NullableInner(s), rows);
    } else if t.Array? {
      var o := SkipOffsetRows(buf, pos, rows);
      if o.Err? { return Err(o.error); }
      if o.value.0 == 0 {
        NoRows(buf, o.value.1, t.inner, ArrayInner(s));
        return Ok(o.value.1);
      }
      r := SkipBodyRaw(buf, o.value.1, t.inner, ArrayInner(s), o.value.0);
    } else if t.Map? {
      r := SkipMapRaw(buf, pos, t.key, t.value, s, rows);
    } else if t.Tuple? {
      r := SkipTupleRaw(buf, pos, t.elems, TupleElems(s), rows);
    } else if t.LowCardinality? {
      r := SkipLcColumn(buf, pos, t.inner, LowCardinalityInner(s), rows);
    } else if t.JSON? {
      if !s.JsonState? { return Err(MissingState); }
      r := SkipJsonBodyRaw(buf, pos, s.version, s.paths, rows);
    } else if t.Dynamic? {
      if !s.DynamicState? { return Err(MissingState); }
      r := SkipDynamicRaw(buf, pos, s.dynamic, rows);
    } else if t.Variant? {
      r := SkipVariantRaw(buf, pos, t.types, VariantElems(s), rows);
    } else if t.Point? {
      r := SkipPointRaw(buf, pos, rows);
    } else if IsAlias(t) {
      r := SkipBodyRaw(buf, pos, Alias(t), NoState, rows);
    } else {
      r := SkipSimple(buf, pos, t, rows);
    }
  }

  /** The cases of a body, one level deep. */
  lemma {:induction false} BodyCases(buf: seq<byte>, pos: nat, t: ColumnType, s: SkipState, rows: nat)
    requires pos <= |buf|
    ensures rows == 0 ==> SkipBody(buf, pos, t, s, rows) == Ok(pos)
    ensures rows != 0 && t.Nullable? ==>
              SkipBody(buf, pos, t, s, rows) ==
              var p := Advance(buf, pos, rows);
              if p.Err? then p else SkipBody(buf, p.value, t.inner, NullableInner(s), rows)
    ensures rows != 0 && t.Array? ==>
              SkipBody(buf, pos, t, s, rows) ==
              var o := SkipOffsets(buf, pos, rows);
              if o.Err? then Err(o.error) else SkipBody(buf, o.value.1, t.inner, ArrayInner(s), o.value.0)
    ensures rows != 0 && t.Map? ==> SkipBody(buf, pos, t, s, rows) == SkipMapBody(buf, pos, t.key, t.value, s, rows)
    ensures rows != 0 && t.Tuple? ==> SkipBody(buf, pos, t, s, rows) == SkipElems(buf, pos, t.elems, TupleElems(s), rows)
    ensures rows != 0 && t.LowCardinality? ==>
              SkipBody(buf, pos, t, s, rows) == SkipDictionary(buf, pos, t.inner, LowCardinalityInner(s), rows)
    ensures rows != 0 && t.JSON? ==>
              SkipBody(buf, pos, t, s, rows) ==
              if s.JsonState? then SkipJsonBody(buf, pos, s.version, s.paths, rows) else Err(MissingState)
    ensures rows != 0 && t.Dynamic? ==>
              SkipBody(buf, pos, t, s, rows) ==
              if s.DynamicState? then SkipDynamicBody(buf, pos, s.dynamic, rows) else Err(MissingState)
    ensures rows != 0 && t.Variant? ==> SkipBody(buf, pos, t, s, rows) == SkipVariantBody(buf, pos, t.types, VariantElems(s), rows)
    ensures rows != 0 && t.Point? ==> SkipBody(buf, pos, t, s, rows) == SkipPoint(buf, pos, rows)
    ensures rows != 0 && IsAlias(t) ==> SkipBody(buf, pos, t, s, rows) == SkipBody(buf, pos, Alias(t), NoState, rows)
    ensures rows != 0 && IsSimple(t) ==> SkipBody(buf, pos, t, s, rows) == SkipLayout(buf, pos, LayoutOf(t), rows)
  {
    hide SkipBody;
    NestedBodyCases(buf, pos, t, s, rows);
    StateBodyCases(buf, pos, t, s, rows);
    FlatBodyCases(buf, pos, t, s, rows);
  }

  lemma {:induction false} NestedBodyCases(buf: seq<byte>, pos: nat, t: ColumnType, s: SkipState, rows: nat)
    requires pos <= |buf|
    ensures rows == 0 ==> SkipBody(buf, pos, t, s, rows) == Ok(pos)
    ensures rows != 0 && t.Nullable? ==>
              SkipBody(buf, pos, t, s, rows) ==
              var p := Advance(buf, pos, rows);
              if p.Err? then p else SkipBody(buf, p.value, t.inner, NullableInner(s), rows)
    ensures rows != 0 && t.Array? ==>
              SkipBody(buf, pos, t, s, rows) ==
              var o := SkipOffsets(buf, pos, rows);
              if o.Err? then Err(o.error) else SkipBody(buf, o.value.1, t.inner, ArrayInner(s), o.value.0)
    ensures rows != 0 && t.Map? ==> SkipBody(buf, pos, t, s, rows) == SkipMapBody(buf, pos, t.key, t.value, s, rows)
    ensures rows != 0 && t.Tuple? ==> SkipBody(buf, pos, t, s, rows) == SkipElems(buf, pos, t.elems, TupleElems(s), rows)
    ensures rows != 0 && t.LowCardinality? ==>
              SkipBody(buf, pos, t, s, rows) == SkipDictionary(buf, pos, t.inner, LowCardinalityInner(s), rows)
  {
    hide SkipOffsets, SkipMapBody, SkipElems, SkipDictionary, SkipJsonBody, SkipDynamicBody, SkipVariantBody, SkipPoint, SkipLayout, LayoutOf, Alias;
  }

  lemma {:induction false} StateBodyCases(buf: seq<byte>, pos: nat, t: ColumnType, s: SkipState, rows: nat)
    requires pos <= |buf|
    ensures rows != 0 && t.JSON? ==>
              SkipBody(buf, pos, t, s, rows) ==
              if s.JsonState? then SkipJsonBody(buf, pos, s.version, s.paths, rows) else Err(MissingState)
    ensures rows != 0 && t.Dynamic? ==>
              SkipBody(buf, pos, t, s, rows) ==
              if s.DynamicState? then SkipDynamicBody(buf, pos, s.dynamic, rows) else Err(MissingState)
    ensures rows != 0 && t.Variant? ==> SkipBody(buf, pos, t, s, rows) == SkipVariantBody(buf, pos, t.types, VariantElems(s), rows)
  {
    hide SkipOffsets, SkipMapBody, SkipElems, SkipDictionary, SkipJsonBody, SkipDynamicBody, SkipVariantBody, SkipPoint, SkipLayout, LayoutOf, Alias;
  }

  lemma {:induction false} FlatBodyCases(buf: seq<byte>, pos: nat, t: ColumnType, s: SkipState, rows: nat)
    requires pos <= |buf|
    ensures rows != 0 && t.Point? ==> SkipBody(buf, pos, t, s, rows) == SkipPoint(buf, pos, rows)
    ensures rows != 0 && IsAlias(t) ==> SkipBody(buf, pos, t, s, rows) == SkipBody(buf, pos, Alias(t), NoState, rows)
    ensures rows != 0 && IsSimple(t) ==> SkipBody(buf, pos, t, s, rows) == SkipLayout(buf, pos, LayoutOf(t), rows)
  {
    hide SkipBody, SkipPoint, SkipLayout, LayoutOf, Alias;
    if rows != 0 && (t.Point? || IsAlias(t)) {
      GeoBodyCase(buf, pos, t, s, rows);
    } else if rows != 0 && IsSimple(t) {
      SimpleBodyCase(buf, pos, t, s, rows);
    }
  }

  lemma {:induction false} GeoBodyCase(buf: seq<byte>, pos: nat, t: ColumnType, s: SkipState, rows: nat)
    requires pos <= |buf| && rows != 0 && (t.Point? || IsAlias(t))
    ensures SkipBody(buf, pos, t, s, rows) == if t.Point? then SkipPoint(buf, pos, rows) else SkipBody(buf, pos, Alias(t), NoState, rows)
  {
    hide SkipPoint, Alias;
  }

  lemma {:induction false} SimpleBodyCase(buf: seq<byte>, pos: nat, t: ColumnType, s: SkipState, rows: nat)
    requires pos <= |buf| && rows != 0 && IsSimple(t)
    ensures SkipBody(buf, pos, t, s, rows) == SkipLayout(buf, pos, LayoutOf(t), rows)
  {
    hide LayoutOf, SkipLayout;
  }

  /** The cells of a type without state. */
  method SkipSimple(buf: seq<byte>, pos: nat, t: ColumnType, rows: nat) returns (r: Result<nat>)
    requires pos <= |buf| && IsSimple(t)
    ensures r == SkipLayout(buf, pos, LayoutOf(t), rows)
  {
    if LayoutOf(t).Texts? {
      r := SkipStringRows(buf, pos, rows);
    } else {
      r := SkipLayout(buf, pos, LayoutOf(t), rows);
    }
  }

  method SkipPointRaw(buf: seq<byte>, pos: nat, rows: nat) returns (r: Result<nat>)
    requires pos <= |buf|
    ensures r == SkipPoint(buf, pos, rows)
  {
    hide SkipLayout;
    var x := SkipSimple(buf, pos, Float64, rows);
    if x.Err? { return x; }
    r := SkipSimple(buf, x.value, Float64, rows);
  }

  lemma MapStep(buf: seq<byte>, pos: nat, k: ColumnType, v: ColumnType, s: SkipState, rows: nat)
    requires pos <= |buf|
    ensures SkipMapBody(buf, pos, k, v, s, rows) ==
            var o := SkipOffsets(buf, pos, rows);
            if o.Err? then Err(o.error)
            else
              var q := SkipBody(buf, o.value.1, k, MapKey(s), o.value.0);
              if q.Err? then q else SkipBody(buf, q.value, v, MapValue(s), o.value.0)
  {
    hide SkipOffsets, SkipBody;
  }

  method SkipMapRaw(buf: seq<byte>, pos: nat, k: ColumnType, v: ColumnType, s: SkipState, rows: nat) returns (r: Result<nat>)
    requires pos <= |buf|
    ensures r == SkipMapBody(buf, pos, k, v, s, rows)
    decreases StateSize(s), TypeSize(k) + TypeSize(v), 3
  {
    hide SkipOffsets, SkipBody, SkipMapBody;
    MapStep(buf, pos, k, v, s, rows);
    var o := SkipOffsetRows(buf, pos, rows);
    if o.Err? { return Err(o.error); }
    var (total, start) := o.value;
    if total == 0 {
      NoRows(buf, start, k, MapKey(s));
      NoRows(buf, start, v, MapValue(s));
      return Ok(start);
    }
    var keys := SkipBodyRaw(buf, start, k, MapKey(s), total);
    if keys.Err? { return keys; }
    r := SkipBodyRaw(buf, keys.value, v, MapValue(s), total);
  }

  method SkipTupleRaw(buf: seq<byte>, start: nat, ts: seq<ColumnType>, ss: seq<SkipState>, rows: nat) returns (r: Result<nat>)
    requires start <= |buf|
    ensures r == SkipElems(buf, start, ts, ss, rows)
    decreases StatesSize(ss), TypesSize(ts), 3
  {
    hide SkipBody, StateAt;
    var pos: nat := start;
    for i := 0 to |ts|
      invariant pos <= |buf|
      invariant SkipElems(buf, start, ts, ss, rows) == SkipElems(buf, pos, ts[i..], StatesFrom(ss, i), rows)
    {
      ElemsStep(buf, pos, ts, ss, i, rows);
      MemberSize(ts, i);
      StateAtSize(ss, i);
      var p := SkipBodyRaw(buf, pos, ts[i], StateAt(ss, i), rows);
      if p.Err? { return p; }
      pos := p.value;
    }
    return Ok(pos);
  }

  /** The member loop of `skip_variant_body`, mode 0. */
  method SkipCountedMembers(buf: seq<byte>, start: nat, ts: seq<ColumnType>, ss: seq<SkipState>, counts: seq<nat>) returns (r: Result<nat>)
    requires start <= |buf| && |counts| == |ts|
    ensures r == SkipCounted(buf, start, ts, ss, counts)
    decreases StatesSize(ss), TypesSize(ts), 3
  {
    hide SkipBody, StateAt;
    var pos: nat := start;
    for i := 0 to |ts|
      invariant pos <= |buf|
      invariant SkipCounted(buf, start, ts, ss, counts) == SkipCounted(buf, pos, ts[i..], StatesFrom(ss, i), counts[i..])
    {
      CountedStep(buf, pos, ts, ss, i, counts);
      if counts[i] > 0 {
        MemberSize(ts, i);
        StateAtSize(ss, i);
        var p := SkipBodyRaw(buf, pos, ts[i], StateAt(ss, i), counts[i]);
        if p.Err? { return p; }
        pos := p.value;
      } else {
        NoRows(buf, pos, ts[i], StateAt(ss, i));
      }
    }
    return Ok(pos);
  }

  /** `skip_variant_body`. */
  method SkipVariantRaw(buf: seq<byte>, pos: nat, ts: seq<ColumnType>, ss: seq<SkipState>, rows: nat) returns (r: Result<nat>)
    requires pos <= |buf|
    ensures r == SkipVariantBody(buf, pos, ts, ss, rows)
    decreases StatesSize(ss), TypesSize(ts), 4
  {
    hide SkipBody, SkipCounted, LeValue, Counts;
    var m := U64At(buf, pos);
    if m.Err? { return Err(m.error); }
    var (mode, p) := m.value;
    if rows == 0 || ts == [] {
      return Ok(p);
    }
    if mode == 0 {
      var q := Advance(buf, p, rows);
      if q.Err? { return q; }
      var counts := CountDiscriminators(buf[p..q.value], |ts|);
      r := SkipCountedMembers(buf, q.value, ts, ss, counts);
    } else if mode == 1 {
      var d := U64At(buf, p);
      if d.Err? { return Err(d.error); }
      var n := U64At(buf, d.value.1);
      if n.Err? { return Err(n.error); }
      var disc, compact := d.value.0, n.value.0;
      if compact > rows { return Err(CountMismatch); }
      if disc < |ts| && compact > 0 {
        MemberSize(ts, disc);
        StateAtSize(ss, disc);
        r := SkipBodyRaw(buf, n.value.1, ts[disc], StateAt(ss, disc), compact);
      } else {
        return Ok(n.value.1);
      }
    } else {
      return Err(UnknownVersion);
    }
  }

  lemma DictionaryStep(buf: seq<byte>, pos: nat, t: ColumnType, s: SkipState, rows: nat)
    requires pos <= |buf|
    ensures SkipDictionary(buf, pos, t, s, rows) ==
            var h := DictionaryHeader(buf, pos);
            if h.Err? then Err(h.error)
            else
              var q := SkipBody(buf, h.value.2, t, s, h.value.1);
              if q.Err? then q else DictionaryIndexes(buf, q.value, h.value.0, rows)
  {
    hide SkipBody, DictionaryHeader, DictionaryIndexes;
  }

  /** `skip_lc_column`. */
  method SkipLcColumn(buf: seq<byte>, pos: nat, t: ColumnType, s: SkipState, rows: nat) returns (r: Result<nat>)
    requires pos <= |buf|
    ensures r == SkipDictionary(buf, pos, t, s, rows)
    decreases StateSize(s), TypeSize(t), 3
  {
    hide SkipBody, DictionaryHeader, DictionaryIndexes, SkipDictionary;
    DictionaryStep(buf, pos, t, s, rows);
    var h := DictionaryHeader(buf, pos);
    if h.Err? { return Err(h.error); }
    var (width, keys, p) := h.value;
    if keys > 0 {
      var q := SkipBodyRaw(buf, p, t, s, keys);
      if q.Err? { return q; }
      p := q.value;
    } else {
      NoRows(buf, p, t, s);
    }
    r := DictionaryIndexes(buf, p, width, rows);
  }

  /** `skip_dynamic_body`. */
  method SkipDynamicRaw(buf: seq<byte>, pos: nat, d: DynState, rows: nat) returns (r: Result<nat>)
    requires pos <= |buf|
    ensures r == SkipDynamicBody(buf, pos, d, rows)
    decreases DynSize(d), 0, 0
  {
    hide ReadDiscs, SkipCountedNames, Counts;
    if rows == 0 || d.names == [] || d.version == 0 {
      return Ok(pos);
    }
    var scan := ScanDiscriminators(buf, pos, d.version, |d.names|, rows);
    if scan.Err? { return Err(scan.error); }
    r := SkipCountedSubcolumns(buf, scan.value.1, d, scan.value.0);
  }

  /** `skip_counted_subcolumns`. */
  method SkipCountedSubcolumns(buf: seq<byte>, start: nat, d: DynState, counts: seq<nat>) returns (r: Result<nat>)
    requires start <= |buf| && |counts| == |d.names|
    ensures r == SkipCountedNames(buf, start, d.names, d.states, counts)
    decreases |d.names| + StatesSize(d.states), 0, 0
  {
    hide SkipBody, StateAt, ParseType;
    var names := d.names;
    var pos: nat := start;
    for i := 0 to |names|
      invariant pos <= |buf|
      invariant SkipCountedNames(buf, start, names, d.states, counts)
             == SkipCountedNames(buf, pos, names[i..], StatesFrom(d.states, i), counts[i..])
    {
      CountedNamesStep(buf, pos, names, d.states, i, counts);
      if counts[i] != 0 {
        var t := ParseType(names[i]);
        if t.Err? { return Err(t.error); }
        StateAtSize(d.states, i);
        var p := SkipBodyRaw(buf, pos, t.value, StateAt(d.states, i), counts[i]);
        if p.Err? { return p; }
        pos := p.value;
      }
    }
    return Ok(pos);
  }

  /** `skip_json_body_raw`. */
  method SkipJsonBodyRaw(buf: seq<byte>, start: nat, version: nat, ds: seq<DynState>, rows: nat) returns (r: Result<nat>)
    requires start <= |buf|
    ensures r == SkipJsonBody(buf, start, version, ds, rows)
    decreases DynsSize(ds), 1, 0
  {
    hide SkipDynamicBody, SkipStrings;
    if version == 1 || version == 4 {
      r := SkipStringRows(buf, start, rows);
      return;
    }
    if version != 0 && version != 3 {
      return Err(UnknownVersion);
    }
    var pos: nat := start;
    for i := 0 to |ds|
      invariant pos <= |buf|
      invariant SkipDynamicBodies(buf, start, ds, rows) == SkipDynamicBodies(buf, pos, ds[i..], rows)
    {
      assert ds[i..][1..] == ds[i + 1..];
      DynMemberSize(ds, i);
      var p := SkipDynamicRaw(buf, pos, ds[i], rows);
      if p.Err? { return p; }
      pos := p.value;
    }
    if version == 0 {
      return AdvanceCells(buf, pos, rows, 8);
    }
    return Ok(pos);
  }

  lemma {:induction false} DynMemberSize(ds: seq<DynState>, i: nat)
    requires i < |ds|
    ensures DynSize(ds[i]) < DynsSize(ds)
  {
    hide DynSize;
    if i > 0 {
      DynMemberSize(ds[1..], i - 1);
    }
  }

  // --------------------------------------------------------------------------
  // Whole columns
  // --------------------------------------------------------------------------

  /** `skip_column_data`. */
  method SkipColumnData(buf: seq<byte>, pos: nat, t: ColumnType, rows: nat) returns (r: Result<nat>)
    requires pos <= |buf|
    ensures r == SkipData(buf, pos, t, rows)
    decreases TypeSize(t), 1
  {
    hide SkipJson, SkipOffsets, SkipMapData, SkipDataElems, SkipDictionary, SkipVariantBody, SkipDynamicBody, SkipPrefixes, SkipDynamicState, SkipPoint, SkipLayout, LayoutOf;
    if rows == 0 {
      return Ok(pos);
    }
    if t.JSON? {
      r := SkipMaterializedJson(buf, pos, rows);
    } else if t.Nullable? {
      var p := Advance(buf, pos, rows);
      if p.Err? { return p; }
      r := SkipColumnData(buf, p.value, t.inner, rows);
    } else if t.Array? {
      r := SkipArrayColumn(buf, pos, t, rows);
    } else if t.Map? {
      r := SkipMapColumn(buf, pos, t, rows);
    } else if t.Tuple? {
      r := SkipTupleColumn(buf, pos, t.elems, rows);
    } else if t.Point? {
      r := SkipPointRaw(buf, pos, rows);
    } else if IsAlias(t) {
      r := SkipColumnData(buf, pos, Alias(t), rows);
    } else if t.LowCardinality? {
      r := SkipLcColumn(buf, pos, t.inner, NoState, rows);
    } else if t.Variant? {
      var ss := SkipStatePrefixes(buf, pos, t.types);
      if ss.Err? { return Err(ss.error); }
      r := SkipVariantRaw(buf, ss.value.1, t.types, ss.value.0, rows);
    } else if t.Dynamic? {
      var d := SkipDynamicPrefix(buf, pos);
      if d.Err? { return Err(d.error); }
      r := SkipDynamicRaw(buf, d.value.1, d.value.0, rows);
    } else {
      r := SkipSimple(buf, pos, t, rows);
    }
  }

  method SkipMaterializedJson(buf: seq<byte>, pos: nat, rows: nat) returns (r: Result<nat>)
    requires pos <= |buf|
    ensures r == SkipJson(buf, pos, rows)
  {
    hide SkipStrings, LeValue;
    var v := U64At(buf, pos);
    if v.Err? { return Err(v.error); }
    if v.value.0 != 1 && v.value.0 != 4 { return Err(UnknownVersion); }
    r := SkipStringRows(buf, v.value.1, rows);
  }

  method SkipArrayColumn(buf: seq<byte>, pos: nat, t: ColumnType, rows: nat) returns (r: Result<nat>)
    requires pos <= |buf| && t.Array? && rows != 0
    ensures r == SkipData(buf, pos, t, rows)
    decreases TypeSize(t), 0
  {
    hide SkipOffsets, SkipLayout, LayoutOf;
    var o := SkipOffsetRows(buf, pos, rows);
    if o.Err? { return Err(o.error); }
    if o.value.0 > 0 {
      r := SkipColumnData(buf, o.value.1, t.inner, o.value.0);
    } else {
      NoDataRows(buf, o.value.1, t.inner);
      return Ok(o.value.1);
    }
  }

  lemma NoDataRows(buf: seq<byte>, pos: nat, t: ColumnType)
    requires pos <= |buf|
    ensures SkipData(buf, pos, t, 0) == Ok(pos)
  {
  }

  method SkipMapColumn(buf: seq<byte>, pos: nat, t: ColumnType, rows: nat) returns (r: Result<nat>)
    requires pos <= |buf| && t.Map?
    ensures r == SkipMapData(buf, pos, t.key, t.value, rows)
    decreases TypeSize(t), 0
  {
    hide SkipOffsets, SkipData;
    var o := SkipOffsetRows(buf, pos, rows);
    if o.Err? { return Err(o.error); }
    var (total, start) := o.value;
    if total == 0 {
      NoDataRows(buf, start, t.key);
      NoDataRows(buf, start, t.value);
      return Ok(start);
    }
    var keys := SkipColumnData(buf, start, t.key, total);
    if keys.Err? { return keys; }
    r := SkipColumnData(buf, keys.value, t.value, total);
  }

  method SkipTupleColumn(buf: seq<byte>, start: nat, ts: seq<ColumnType>, rows: nat) returns (r: Result<nat>)
    requires start <= |buf|
    ensures r == SkipDataElems(buf, start, ts, rows)
    decreases TypesSize(ts), 0
  {
    hide SkipData;
    var pos: nat := start;
    for i := 0 to |ts|
      invariant pos <= |buf|
      invariant SkipDataElems(buf, start, ts, rows) == SkipDataElems(buf, pos, ts[i..], rows)
    {
      assert ts[i..][1..] == ts[i + 1..];
      MemberSize(ts, i);
      var p := SkipColumnData(buf, pos, ts[i], rows);
      if p.Err? { return p; }
      pos := p.value;
    }
    return Ok(pos);
  }
}
