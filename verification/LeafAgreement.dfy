/** On which leaf types the value decoder and the skipper agree. */
module LeafAgreement {
  import opened Bytes
  import opened Limits
  import opened Varint
  import Utf8
  import opened ColumnTypes
  import opened SkipSpec
  import opened WireFormat
  import opened FramingSound
  import opened FramingComplete
  import Framing
  import opened VariantDecode
  import opened DecodeAgreement
  import opened DecodePanics

  /** On every buffer that the skipper accepts for these rows, the decoder stops
      where the skipper stops, or finds a string that is not UTF-8. */
  ghost predicate FollowsSkipper(mem: Memory, t: ColumnType, rows: nat)
  {
    forall data: seq<byte>, pos: nat {:trigger SkipData(data, pos, t, rows)} | pos <= |data| && SkipData(data, pos, t, rows).Ok? ::
      StopsAt(Decode(mem, data, pos, t, rows), SkipData(data, pos, t, rows).value)
  }

  ghost predicate StopsAt<T>(o: Outcome<T>, end: nat)
  {
    o == Failed(BadUtf8) || (o.Done? && o.end == end)
  }

  /** Without rows it does unless the type is outside its table; with rows, when it
      knows the cells, or when the skipper takes no such column at all. */
  predicate LeafFollows(t: ColumnType, rows: nat)
    requires IsLeaf(t)
  {
    if rows == 0 then !KindOf(t).RestKind?
    else
      || PlainLeaf(t)
      || (IsSimple(t) && LayoutOf(t).Refused?)
      || ((t.Point? || IsAlias(t)) && 8 * rows > MAX_COLUMN_BYTES)
  }

  lemma LeavesAgree(mem: Memory, t: ColumnType, rows: nat)
    requires IsLeaf(t) && Roomy(mem, rows)
    ensures FollowsSkipper(mem, t, rows) <==> LeafFollows(t, rows)
  {
    hide FollowsSkipper, KindOf, LayoutOf;
    if rows == 0 {
      NoRowsAgreement(mem, t);
    } else if PlainLeaf(t) {
      PlainFollows(mem, t, rows);
    } else if t.Nothing? {
      NothingParts(mem, rows);
    } else if t.JSON? {
      JsonParts(mem, rows);
    } else if t.Dynamic? {
      DynamicParts(mem, rows);
    } else if t.Point? || IsAlias(t) {
      GeoAgreement(mem, t, rows);
    } else if t.Other? {
      OtherParts(mem, t, rows);
    } else {
      RefusedLeaf(t);
      RefusedFollows(mem, t, rows);
    }
  }

  lemma RefusedLeaf(t: ColumnType)
    requires IsLeaf(t) && !PlainLeaf(t) && !t.Nothing? && !t.JSON? && !t.Dynamic? && !t.Point? && !IsAlias(t) && !t.Other?
    ensures IsSimple(t) && LayoutOf(t).Refused?
  {
  }

  lemma RefusedFollows(mem: Memory, t: ColumnType, rows: nat)
    requires rows > 0 && IsSimple(t) && LayoutOf(t).Refused?
    ensures FollowsSkipper(mem, t, rows)
  {
    hide LayoutOf;
  }

  lemma PlainFollows(mem: Memory, t: ColumnType, rows: nat)
    requires Decodable(t) && Roomy(mem, rows)
    ensures FollowsSkipper(mem, t, rows)
  {
    hide SkipData, Decode;
    forall data: seq<byte>, pos: nat | pos <= |data| && SkipData(data, pos, t, rows).Ok?
      ensures StopsAt(Decode(mem, data, pos, t, rows), SkipData(data, pos, t, rows).value)
    {
      var c := TwoParsersAgree(mem, data, pos, t, rows);
    }
  }

  /** A buffer on which the decoder does not stop where the skipper stops. */
  lemma Parts(mem: Memory, data: seq<byte>, pos: nat, t: ColumnType, rows: nat)
    requires pos <= |data| && SkipData(data, pos, t, rows).Ok?
    requires !StopsAt(Decode(mem, data, pos, t, rows), SkipData(data, pos, t, rows).value)
    ensures !FollowsSkipper(mem, t, rows)
  {
    hide SkipData, Decode, StopsAt;
  }

  lemma NoRowsAgreement(mem: Memory, t: ColumnType)
    requires IsLeaf(t)
    ensures FollowsSkipper(mem, t, 0) <==> !KindOf(t).RestKind?
  {
    hide KindOf, Decode, SkipData;
    if KindOf(t).RestKind? {
      RestJumps(mem, [0], 0, t);
      Parts(mem, [0], 0, t, 0);
    } else {
      forall data: seq<byte>, pos: nat | pos <= |data|
        ensures SkipData(data, pos, t, 0) == Ok(pos) && Decode(mem, data, pos, t, 0) == Done([], pos)
      {
        LeafStays(mem, data, pos, t);
      }
    }
  }

  lemma LeafStays(mem: Memory, data: seq<byte>, pos: nat, t: ColumnType)
    requires pos <= |data| && IsLeaf(t) && !KindOf(t).RestKind?
    ensures SkipData(data, pos, t, 0) == Ok(pos)
    ensures Decode(mem, data, pos, t, 0) == Done([], pos)
  {
    hide KindOf, DecodeLeaf;
    NothingDecoded(data, pos, t);
  }

  lemma NothingDecoded(data: seq<byte>, pos: nat, t: ColumnType)
    requires pos <= |data| && IsLeaf(t) && !KindOf(t).RestKind?
    ensures DecodeLeaf(data, pos, t, 0) == Done([], pos)
  {
    hide KindOf;
  }

  /** Without rows the skipper stays where it is; on a type outside its table the
      decoder jumps to the end. */
  lemma RestJumps(mem: Memory, data: seq<byte>, pos: nat, t: ColumnType)
    requires pos < |data| && IsLeaf(t) && KindOf(t).RestKind?
    ensures SkipData(data, pos, t, 0) == Ok(pos)
    ensures Decode(mem, data, pos, t, 0) == Done([], |data|)
  {
    hide KindOf;
  }

  /** The skipper steps over one byte per row of a Nothing column; the decoder
      takes none. */
  lemma NothingDiffers(mem: Memory, data: seq<byte>, pos: nat, rows: nat)
    requires 0 < rows <= mem.values && pos + rows <= |data|
    ensures SkipData(data, pos, Nothing, rows) == Ok(pos + rows)
    ensures Decode(mem, data, pos, Nothing, rows) == Done(Repeat(Null, rows), pos)
  {
  }

  lemma NothingParts(mem: Memory, rows: nat)
    requires 0 < rows <= mem.values
    ensures !FollowsSkipper(mem, Nothing, rows) && LayoutOf(Nothing).OneByte?
  {
    hide SkipData, Decode;
    var data := Zeros(rows);
    NothingDiffers(mem, data, 0, rows);
    Parts(mem, data, 0, Nothing, rows);
  }

  /** A zero byte is an empty string to both parsers. */
  lemma {:induction false} ZeroStrings(data: seq<byte>, pos: nat, t: ColumnType, rows: nat)
    requires pos + rows <= |data| && forall i :: pos <= i < pos + rows ==> data[i] == 0
    ensures SkipStrings(data, pos, rows) == Ok(pos + rows)
    ensures DecodeTexts(data, pos, t, rows).Done? && DecodeTexts(data, pos, t, rows).end == pos + rows
    decreases rows
  {
    hide VarintAt, CheckedVarintAt, Utf8.Decode;
    if rows > 0 {
      SmallVarint(data, pos);
      EmptyText(data, pos + 1);
      ZeroStrings(data, pos + 1, t, rows - 1);
    }
  }

  lemma SmallVarint(data: seq<byte>, pos: nat)
    requires pos < |data| && data[pos] < 128
    ensures VarintAt(data, pos) == CheckedVarintAt(data, pos) == Ok((data[pos] as nat, pos + 1))
  {
  }

  lemma EmptyText(data: seq<byte>, pos: nat)
    requires pos <= |data|
    ensures Utf8.Decode(data[pos..pos]) == Some("")
  {
  }

  /** The skipper takes eight bytes of version in front of JSON rows, the decoder
      none. */
  lemma JsonParts(mem: Memory, rows: nat)
    requires 0 < rows <= mem.values
    ensures !FollowsSkipper(mem, JSON, rows)
  {
    hide FollowsSkipper, SkipData, Decode;
    var data: seq<byte> := [1, 0, 0, 0, 0, 0, 0, 0] + Zeros(rows);
    JsonSkip(data, rows);
    JsonDecode(mem, data, rows);
    Parts(mem, data, 0, JSON, rows);
  }

  lemma JsonSkip(data: seq<byte>, rows: nat)
    requires rows > 0 && data == [1, 0, 0, 0, 0, 0, 0, 0] + Zeros(rows)
    ensures SkipData(data, 0, JSON, rows) == Ok(8 + rows)
  {
    hide SkipStrings, LeValue;
    assert data[0..8] == [1] + Zeros(7);
    assert ([1] + Zeros(7))[1..] == Zeros(7);
    OneValue([1] + Zeros(7));
    ZeroStrings(data, 8, JSON, rows);
  }

  lemma OneValue(s: seq<byte>)
    requires s != [] && s[0] == 1 && forall i :: 0 < i < |s| ==> s[i] == 0
    ensures LeValue(s) == 1
  {
    ZeroValue(s[1..]);
  }

  lemma JsonDecode(mem: Memory, data: seq<byte>, rows: nat)
    requires 0 < rows <= mem.values && data == [1, 0, 0, 0, 0, 0, 0, 0] + Zeros(rows)
    ensures var o := Decode(mem, data, 0, JSON, rows); o.Done? && o.end == 1 + rows
  {
    hide DecodeTexts;
    ZeroStrings(data, 2, JSON, rows - 1);
    OneText(data, rows);
    assert Decode(mem, data, 0, JSON, rows) == DecodeTexts(data, 0, JSON, rows);
  }

  lemma OneText(data: seq<byte>, rows: nat)
    requires rows > 0 && |data| >= 2 && data[0] == 1 && data[1] == 0
    requires DecodeTexts(data, 2, JSON, rows - 1).Done?
    ensures DecodeTexts(data, 0, JSON, rows).Done?
    ensures DecodeTexts(data, 0, JSON, rows).end == DecodeTexts(data, 2, JSON, rows - 1).end
  {
    hide VarintAt, CheckedVarintAt;
    SmallVarint(data, 0);
    assert data[1..2] == [0];
    assert Utf8.Decode([0]).Some?;
  }

  /** Where the skipper takes a column of a type outside the decoder's table, one
      more byte separates the two. */
  lemma RestParts(mem: Memory, data: seq<byte>, t: ColumnType, rows: nat)
    requires rows <= mem.values && IsLeaf(t) && KindOf(t).RestKind? && SkipData(data, 0, t, rows) == Ok(|data|)
    ensures !FollowsSkipper(mem, t, rows)
  {
    hide SkipData, KindOf;
    var longer: seq<byte> := data + [0];
    assert Occurs(longer, 0, data[0..|data|]) by { assert data[0..|data|] == data; }
    Framing.SkipIsLocal(data, 0, longer, 0, t, rows);
    assert Decode(mem, longer, 0, t, rows).end == |data| + 1;
    Parts(mem, longer, 0, t, rows);
  }

  lemma OtherParts(mem: Memory, t: ColumnType, rows: nat)
    requires 0 < rows <= mem.values && t.Other?
    ensures !FollowsSkipper(mem, t, rows) && LayoutOf(t).Texts?
  {
    hide FollowsSkipper, SkipData, Decode;
    OtherSkipped(t, rows);
    RestParts(mem, Zeros(rows), t, rows);
  }

  lemma {:induction false} OtherSkipped(t: ColumnType, rows: nat)
    requires rows > 0 && t.Other?
    ensures SkipData(Zeros(rows), 0, t, rows) == Ok(rows)
  {
    hide SkipStrings;
    ZeroStrings(Zeros(rows), 0, t, rows);
  }

  lemma DynamicParts(mem: Memory, rows: nat)
    requires 0 < rows <= mem.values
    ensures !FollowsSkipper(mem, Dynamic, rows)
  {
    hide FollowsSkipper, SkipData, Decode;
    TypelessSkipped(rows);
    RestParts(mem, Zeros(8), Dynamic, rows);
  }

  /** A Dynamic column of version 0 is its version and nothing else. */
  lemma TypelessSkipped(rows: nat)
    requires rows > 0
    ensures SkipData(Zeros(8), 0, Dynamic, rows) == Ok(8)
  {
    hide LeValue;
    assert Zeros(8)[0..8] == Zeros(8);
    ZeroValue(Zeros(8));
    assert SkipNamed(Zeros(8), 8, []) == Ok(([], 8));
    assert SkipDynamicState(Zeros(8), 0) == Ok((DynState(0, [], []), 8));
  }

  lemma GeoAgreement(mem: Memory, t: ColumnType, rows: nat)
    requires 0 < rows <= mem.values && (t.Point? || IsAlias(t))
    ensures FollowsSkipper(mem, t, rows) <==> 8 * rows > MAX_COLUMN_BYTES
  {
    hide FollowsSkipper, Decode, SkipData;
    if 8 * rows > MAX_COLUMN_BYTES {
      GeoRefused(mem, t, rows);
    } else if t.Point? {
      PointTaken(rows);
      RestParts(mem, Zeros(16 * rows), t, rows);
    } else {
      AliasTaken(t, rows);
      RestParts(mem, Zeros(8 * rows), t, rows);
    }
  }

  lemma GeoRefused(mem: Memory, t: ColumnType, rows: nat)
    requires rows > 0 && (t.Point? || IsAlias(t)) && 8 * rows > MAX_COLUMN_BYTES
    ensures FollowsSkipper(mem, t, rows)
  {
    hide Decode;
  }

  lemma PointTaken(rows: nat)
    requires rows > 0 && 8 * rows <= MAX_COLUMN_BYTES
    ensures SkipData(Zeros(16 * rows), 0, Point, rows) == Ok(16 * rows)
  {
  }

  lemma AliasTaken(t: ColumnType, rows: nat)
    requires rows > 0 && 8 * rows <= MAX_COLUMN_BYTES && IsAlias(t)
    ensures SkipData(Zeros(8 * rows), 0, t, rows) == Ok(8 * rows)
  {
    hide OffsetsFrom;
    ZeroOffsets(Zeros(8 * rows), 0, rows);
    assert SkipOffsets(Zeros(8 * rows), 0, rows) == Ok((0, 8 * rows));
    assert SkipData(Zeros(8 * rows), 8 * rows, Alias(t).inner, 0) == Ok(8 * rows);
  }

  lemma {:induction false} ZeroOffsets(data: seq<byte>, pos: nat, rows: nat)
    requires pos + 8 * rows <= |data| && forall i :: pos <= i < pos + 8 * rows ==> data[i] == 0
    ensures OffsetsFrom(data, pos, rows, 0) == Ok(0)
    decreases rows
  {
    hide LeValue;
    if rows > 0 {
      ZeroValue(data[pos..pos + 8]);
      ZeroOffsets(data, pos + 8, rows - 1);
    }
  }
}
