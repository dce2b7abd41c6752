/** For which types the streaming discarder and the skipper agree. */
module DiscardAgreement {
  import opened Bytes
  import opened Limits
  import opened Varint
  import opened ColumnTypes
  import opened TypeNames
  import opened TypeRoundTrip
  import opened SkipSpec
  import opened StringColumn
  import opened DiscardColumn
  import opened DiscardShape

  // --------------------------------------------------------------------------
  // Two caps that only one of them has
  // --------------------------------------------------------------------------

  /** A fixed-width column above the column cap, which only the skipper refuses. */
  predicate WideLeaf(named: bool, t: ColumnType, rows: nat)
    requires Streamable(t) && Kidless(t)
  {
    && !t.JSON? && !t.Other? && !(named && IsBare(t))
    && LayoutOf(t).Cells? && rows * LayoutOf(t).width > MAX_COLUMN_BYTES
  }

  /** The discarder comes to such a column. */
  predicate WideCells(named: bool, buf: seq<byte>, pos: nat, t: ColumnType, rows: nat)
    requires pos <= |buf| && Streamable(t)
    decreases TypeSize(t)
  {
    && rows != 0
    && if Kidless(t) then WideLeaf(named, t, rows)
       else
         KidsBelow(t);
         var h := Head(buf, pos, t, rows);
         h.Ok? && WideList(buf, h.value.1, Kids(t), h.value.0, TypeSize(t))
  }

  predicate WideList(buf: seq<byte>, pos: nat, ts: seq<ColumnType>, rows: nat, ghost bound: nat)
    requires pos <= |buf| && AllStreamable(ts) && Below(ts, bound)
    decreases bound, |ts|
  {
    && ts != []
    && (|| WideCells(true, buf, pos, ts[0], rows)
        || var p := Toss(true, buf, pos, ts[0], rows);
           p.Ok? && WideList(buf, p.value, ts[1..], rows, bound))
  }

  /** The skipper comes to a column of an unknown type whose strings, each with its
      shortest prefix, add up to more than the column cap: only the discarder refuses it. */
  predicate LongTexts(dict: bool, buf: seq<byte>, pos: nat, t: ColumnType, rows: nat)
    requires pos <= |buf| && Streamable(t)
    decreases TypeSize(t)
  {
    && rows != 0
    && if Kidless(t) then t.Other? && PackedSize(buf, pos, rows) > MAX_COLUMN_BYTES
       else
         KidsBelow(t);
         var h := Head(buf, pos, t, rows);
         h.Ok? && LongList(dict || t.LowCardinality?, buf, h.value.1, Kids(t), h.value.0, TypeSize(t))
  }

  predicate LongList(dict: bool, buf: seq<byte>, pos: nat, ts: seq<ColumnType>, rows: nat, ghost bound: nat)
    requires pos <= |buf| && AllStreamable(ts) && Below(ts, bound)
    decreases bound, |ts|
  {
    && ts != []
    && (|| LongTexts(dict, buf, pos, ts[0], rows)
        || var p := Walk(dict, buf, pos, ts[0], rows);
           p.Ok? && LongList(dict, buf, p.value, ts[1..], rows, bound))
  }

  // --------------------------------------------------------------------------
  // The condition on types
  // --------------------------------------------------------------------------

  /** Whether some column of one row is taken by the discarder and not too wide for
      the skipper. */
  predicate Takes(t: ColumnType)
    requires Streamable(t)
    decreases TypeSize(t)
  {
    if Kidless(t) then LeafTakes(t)
    else
      KidsBelow(t);
      t.Array? || t.Map? || t.LowCardinality? || AllTake(Kids(t), TypeSize(t))
  }

  predicate LeafTakes(t: ColumnType)
    requires Streamable(t) && Kidless(t)
  {
    if t.JSON? || IsBare(t) then true
    else
      match LayoutOf(t)
      case Cells(width) => width <= MAX_COLUMN_BYTES
      case Refused => false
      case _ => true
  }

  predicate AllTake(ts: seq<ColumnType>, ghost bound: nat)
    requires AllStreamable(ts) && Below(ts, bound)
    decreases bound, |ts|
  {
    ts == [] || (Takes(ts[0]) && AllTake(ts[1..], bound))
  }

  /** Below a constructor, a type makes a difference when it prints without its
      parameters, or is JSON in a dictionary, or has such a part and all its parts
      can be taken. */
  predicate Differs(dict: bool, t: ColumnType)
    requires Streamable(t)
    decreases TypeSize(t)
  {
    if Kidless(t) then IsBare(t) || (dict && t.JSON?)
    else
      KidsBelow(t);
      && AllTake(Kids(t), TypeSize(t))
      && SomeDiffers(dict || t.LowCardinality?, Kids(t), TypeSize(t))
  }

  predicate SomeDiffers(dict: bool, ts: seq<ColumnType>, ghost bound: nat)
    requires AllStreamable(ts) && Below(ts, bound)
    decreases bound, |ts|
  {
    ts != [] && (Differs(dict, ts[0]) || SomeDiffers(dict, ts[1..], bound))
  }

  // --------------------------------------------------------------------------
  // Parts that cannot be taken
  // --------------------------------------------------------------------------

  lemma {:induction false} WalkCannot(dict: bool, buf: seq<byte>, pos: nat, t: ColumnType, rows: nat)
    requires pos <= |buf| && Streamable(t) && !Takes(t) && rows > 0
    ensures Walk(dict, buf, pos, t, rows).Err?
    decreases TypeSize(t)
  {
    hide WalkList, SkipOffsets, DictionaryHeader, LayoutOf, Kids;
    if Kidless(t) {
      LeafCannot(dict, buf, pos, t, rows);
    } else {
      KidsBelow(t);
      var h := Head(buf, pos, t, rows);
      if h.Ok? { WalkListCannot(dict, buf, h.value.1, Kids(t), rows, TypeSize(t)); }
    }
  }

  lemma LeafCannot(dict: bool, buf: seq<byte>, pos: nat, t: ColumnType, rows: nat)
    requires pos <= |buf| && Streamable(t) && Kidless(t) && !LeafTakes(t) && rows > 0
    ensures WalkLeaf(dict, buf, pos, t, rows).Err?
    ensures TossLeaf(true, buf, pos, t, rows).Ok? ==> WideLeaf(true, t, rows)
    ensures TossLeaf(false, buf, pos, t, rows).Ok? ==> WideLeaf(false, t, rows)
  {
    hide SkipStrings, CappedStrings, LayoutOf, IsBare;
    OtherIsTexts(t);
    if LayoutOf(t).Cells? {
      assert rows * LayoutOf(t).width >= LayoutOf(t).width;
    }
  }

  lemma OtherIsTexts(t: ColumnType)
    ensures t.Other? ==> LayoutOf(t).Texts?
  {
  }

  lemma {:induction false} WalkListCannot(dict: bool, buf: seq<byte>, pos: nat, ts: seq<ColumnType>, rows: nat, bound: nat)
    requires pos <= |buf| && AllStreamable(ts) && Below(ts, bound) && !AllTake(ts, bound) && rows > 0
    ensures WalkList(dict, buf, pos, ts, rows, bound).Err?
    decreases bound, |ts|
  {
    hide Walk, Takes;
    if !Takes(ts[0]) {
      WalkCannot(dict, buf, pos, ts[0], rows);
    } else {
      var p := Walk(dict, buf, pos, ts[0], rows);
      if p.Ok? { WalkListCannot(dict, buf, p.value, ts[1..], rows, bound); }
    }
  }

  lemma {:induction false} TossCannot(named: bool, buf: seq<byte>, pos: nat, t: ColumnType, rows: nat)
    requires pos <= |buf| && Streamable(t) && !Takes(t) && rows > 0 && Toss(named, buf, pos, t, rows).Ok?
    ensures WideCells(named, buf, pos, t, rows)
    decreases TypeSize(t)
  {
    hide TossList, WideList, SkipOffsets, DictionaryHeader, LayoutOf, Kids;
    if Kidless(t) {
      LeafCannot(false, buf, pos, t, rows);
    } else {
      KidsBelow(t);
      TossListCannot(buf, Head(buf, pos, t, rows).value.1, Kids(t), rows, TypeSize(t));
    }
  }

  lemma {:induction false} TossListCannot(buf: seq<byte>, pos: nat, ts: seq<ColumnType>, rows: nat, bound: nat)
    requires pos <= |buf| && AllStreamable(ts) && Below(ts, bound) && !AllTake(ts, bound) && rows > 0
    requires TossList(buf, pos, ts, rows, bound).Ok?
    ensures WideList(buf, pos, ts, rows, bound)
    decreases bound, |ts|
  {
    hide Toss, Takes, WideCells;
    if !Takes(ts[0]) {
      TossCannot(true, buf, pos, ts[0], rows);
    } else {
      TossListCannot(buf, Toss(true, buf, pos, ts[0], rows).value, ts[1..], rows, bound);
    }
  }

  lemma {:induction false} NoRowsWalked(dict: bool, buf: seq<byte>, pos: nat, ts: seq<ColumnType>, bound: nat)
    requires pos <= |buf| && AllStreamable(ts) && Below(ts, bound)
    ensures WalkList(dict, buf, pos, ts, 0, bound) == Ok(pos) && TossList(buf, pos, ts, 0, bound) == Ok(pos)
    decreases |ts|
  {
    hide Streamable;
    if ts != [] {
      NoRowsWalked(dict, buf, pos, ts[1..], bound);
    }
  }

  // --------------------------------------------------------------------------
  // Elsewhere they agree
  // --------------------------------------------------------------------------

  lemma LeafFollows(dict: bool, buf: seq<byte>, pos: nat, t: ColumnType, rows: nat)
    requires pos <= |buf| && Streamable(t) && Kidless(t) && !IsBare(t) && !(dict && t.JSON?) && rows != 0
    requires WalkLeaf(dict, buf, pos, t, rows).Ok? && !LongTexts(dict, buf, pos, t, rows)
    ensures TossLeaf(true, buf, pos, t, rows) == WalkLeaf(dict, buf, pos, t, rows)
  {
    hide SkipStrings, SkipJson, CappedStrings, PackedSize, LayoutOf, IsBare;
    OtherIsTexts(t);
    CappedExactly(buf, pos, rows, 0);
  }

  lemma LeafPrecedes(dict: bool, buf: seq<byte>, pos: nat, t: ColumnType, rows: nat)
    requires pos <= |buf| && Streamable(t) && Kidless(t) && !IsBare(t) && !(dict && t.JSON?) && rows != 0
    requires TossLeaf(true, buf, pos, t, rows).Ok? && !WideLeaf(true, t, rows)
    ensures WalkLeaf(dict, buf, pos, t, rows) == TossLeaf(true, buf, pos, t, rows)
  {
    hide SkipStrings, SkipJson, CappedStrings, LayoutOf, IsBare;
    OtherIsTexts(t);
    CappedExactly(buf, pos, rows, 0);
  }

  /** What the skipper takes, the discarder takes to the same end. */
  lemma {:induction false} TossFollows(dict: bool, buf: seq<byte>, pos: nat, t: ColumnType, rows: nat)
    requires pos <= |buf| && Streamable(t) && !Differs(dict, t)
    requires Walk(dict, buf, pos, t, rows).Ok? && !LongTexts(dict, buf, pos, t, rows)
    ensures Toss(true, buf, pos, t, rows) == Walk(dict, buf, pos, t, rows)
    decreases TypeSize(t)
  {
    hide Head, Tail, WalkList, TossList, LongList, WalkLeaf, TossLeaf, Kids, PackedSize;
    if rows != 0 {
      if Kidless(t) {
        LeafFollows(dict, buf, pos, t, rows);
      } else {
        KidsBelow(t);
        var (n, p) := Head(buf, pos, t, rows).value;
        if n == 0 {
          NoRowsWalked(dict || t.LowCardinality?, buf, p, Kids(t), TypeSize(t));
        } else if AllTake(Kids(t), TypeSize(t)) {
          TossListFollows(dict || t.LowCardinality?, buf, p, Kids(t), n, TypeSize(t));
        } else {
          WalkListCannot(dict || t.LowCardinality?, buf, p, Kids(t), n, TypeSize(t));
        }
      }
    }
  }

  lemma {:induction false} TossListFollows(dict: bool, buf: seq<byte>, pos: nat, ts: seq<ColumnType>, rows: nat, bound: nat)
    requires pos <= |buf| && AllStreamable(ts) && Below(ts, bound) && !SomeDiffers(dict, ts, bound)
    requires WalkList(dict, buf, pos, ts, rows, bound).Ok? && !LongList(dict, buf, pos, ts, rows, bound)
    ensures TossList(buf, pos, ts, rows, bound) == WalkList(dict, buf, pos, ts, rows, bound)
    decreases bound, |ts|
  {
    hide Walk, Toss, LongTexts, Differs;
    if ts != [] {
      TossFollows(dict, buf, pos, ts[0], rows);
      TossListFollows(dict, buf, Walk(dict, buf, pos, ts[0], rows).value, ts[1..], rows, bound);
    }
  }

  /** What the discarder takes, the skipper takes to the same end. */
  lemma {:induction false} WalkFollows(dict: bool, buf: seq<byte>, pos: nat, t: ColumnType, rows: nat)
    requires pos <= |buf| && Streamable(t) && !Differs(dict, t)
    requires Toss(true, buf, pos, t, rows).Ok? && !WideCells(true, buf, pos, t, rows)
    ensures Walk(dict, buf, pos, t, rows) == Toss(true, buf, pos, t, rows)
    decreases TypeSize(t)
  {
    hide Head, Tail, WalkList, TossList, WideList, WalkLeaf, TossLeaf, Kids, WideLeaf;
    if rows != 0 {
      if Kidless(t) {
        LeafPrecedes(dict, buf, pos, t, rows);
      } else {
        KidsBelow(t);
        var (n, p) := Head(buf, pos, t, rows).value;
        if n == 0 {
          NoRowsWalked(dict || t.LowCardinality?, buf, p, Kids(t), TypeSize(t));
        } else if AllTake(Kids(t), TypeSize(t)) {
          WalkListFollows(dict || t.LowCardinality?, buf, p, Kids(t), n, TypeSize(t));
        } else {
          TossListCannot(buf, p, Kids(t), n, TypeSize(t));
        }
      }
    }
  }

  lemma {:induction false} WalkListFollows(dict: bool, buf: seq<byte>, pos: nat, ts: seq<ColumnType>, rows: nat, bound: nat)
    requires pos <= |buf| && AllStreamable(ts) && Below(ts, bound) && !SomeDiffers(dict, ts, bound)
    requires TossList(buf, pos, ts, rows, bound).Ok? && !WideList(buf, pos, ts, rows, bound)
    ensures WalkList(dict, buf, pos, ts, rows, bound) == TossList(buf, pos, ts, rows, bound)
    decreases bound, |ts|
  {
    hide Walk, Toss, WideCells, Differs;
    if ts != [] {
      WalkFollows(dict, buf, pos, ts[0], rows);
      WalkListFollows(dict, buf, Toss(true, buf, pos, ts[0], rows).value, ts[1..], rows, bound);
    }
  }

  // --------------------------------------------------------------------------
  // A column that one of them refuses for its size is longer than the cap
  // --------------------------------------------------------------------------

  lemma {:induction false} WideConsumes(named: bool, buf: seq<byte>, pos: nat, t: ColumnType, rows: nat)
    requires pos <= |buf| && Streamable(t) && Toss(named, buf, pos, t, rows).Ok? && WideCells(named, buf, pos, t, rows)
    ensures Toss(named, buf, pos, t, rows).value > pos + MAX_COLUMN_BYTES
    decreases TypeSize(t)
  {
    hide Head, Tail, TossList, WideList, Kids, LayoutOf;
    if !Kidless(t) {
      KidsBelow(t);
      var (n, p) := Head(buf, pos, t, rows).value;
      WideListConsumes(buf, p, Kids(t), n, TypeSize(t));
    }
  }

  lemma {:induction false} WideListConsumes(buf: seq<byte>, pos: nat, ts: seq<ColumnType>, rows: nat, bound: nat)
    requires pos <= |buf| && AllStreamable(ts) && Below(ts, bound)
    requires TossList(buf, pos, ts, rows, bound).Ok? && WideList(buf, pos, ts, rows, bound)
    ensures TossList(buf, pos, ts, rows, bound).value > pos + MAX_COLUMN_BYTES
    decreases bound, |ts|
  {
    hide Toss, WideCells;
    var p := Toss(true, buf, pos, ts[0], rows).value;
    if WideCells(true, buf, pos, ts[0], rows) {
      WideConsumes(true, buf, pos, ts[0], rows);
    } else {
      WideListConsumes(buf, p, ts[1..], rows, bound);
    }
  }

  lemma {:induction false} LongConsumes(dict: bool, buf: seq<byte>, pos: nat, t: ColumnType, rows: nat)
    requires pos <= |buf| && Streamable(t) && Walk(dict, buf, pos, t, rows).Ok? && LongTexts(dict, buf, pos, t, rows)
    ensures Walk(dict, buf, pos, t, rows).value > pos + MAX_COLUMN_BYTES
    decreases TypeSize(t)
  {
    hide Head, Tail, WalkList, LongList, Kids, LayoutOf, SkipStrings, PackedSize;
    if Kidless(t) {
      OtherIsTexts(t);
      SizeConsumes(buf, pos, rows);
    } else {
      KidsBelow(t);
      var (n, p) := Head(buf, pos, t, rows).value;
      LongListConsumes(dict || t.LowCardinality?, buf, p, Kids(t), n, TypeSize(t));
    }
  }

  lemma {:induction false} LongListConsumes(dict: bool, buf: seq<byte>, pos: nat, ts: seq<ColumnType>, rows: nat, bound: nat)
    requires pos <= |buf| && AllStreamable(ts) && Below(ts, bound)
    requires WalkList(dict, buf, pos, ts, rows, bound).Ok? && LongList(dict, buf, pos, ts, rows, bound)
    ensures WalkList(dict, buf, pos, ts, rows, bound).value > pos + MAX_COLUMN_BYTES
    decreases bound, |ts|
  {
    hide Walk, LongTexts;
    var p := Walk(dict, buf, pos, ts[0], rows).value;
    if LongTexts(dict, buf, pos, ts[0], rows) {
      LongConsumes(dict, buf, pos, ts[0], rows);
    } else {
      LongListConsumes(dict, buf, p, ts[1..], rows, bound);
    }
  }

  // --------------------------------------------------------------------------
  // The two parsers
  // --------------------------------------------------------------------------

  /** A type makes a difference at the top: a bare type alone does not. */
  predicate Parts(t: ColumnType)
    requires Streamable(t)
  {
    !IsBare(t) && Differs(false, t)
  }

  /** What either takes the other takes to the same end, up to the two caps. */
  predicate AgreeAt(buf: seq<byte>, pos: nat, t: ColumnType, rows: nat)
    requires pos <= |buf| && Domain(t)
  {
    var d, s := Discard(buf, pos, t, rows), SkipData(buf, pos, t, rows);
    && (s.Ok? && !LongTexts(false, buf, pos, t, rows) ==> d == s)
    && (d.Ok? && !WideCells(false, buf, pos, t, rows) ==> s == d)
  }

  lemma TopLeaf(buf: seq<byte>, pos: nat, t: ColumnType, rows: nat)
    requires pos <= |buf| && IsBare(t) && rows != 0
    ensures Streamable(t) && Kidless(t)
    ensures Walk(false, buf, pos, t, rows).Ok? ==> Toss(false, buf, pos, t, rows) == Walk(false, buf, pos, t, rows)
    ensures Toss(false, buf, pos, t, rows).Ok? && !WideCells(false, buf, pos, t, rows) ==>
              Walk(false, buf, pos, t, rows) == Toss(false, buf, pos, t, rows)
  {
  }

  lemma NameIsNothing(buf: seq<byte>, pos: nat, t: ColumnType, rows: nat)
    requires pos <= |buf| && Streamable(t) && !IsBare(t)
    ensures Toss(false, buf, pos, t, rows) == Toss(true, buf, pos, t, rows)
    ensures WideCells(false, buf, pos, t, rows) == WideCells(true, buf, pos, t, rows)
  {
    hide Head, Tail, TossList, WideList, Kids, LayoutOf, IsBare, CappedStrings, DiscardCells;
  }

  /** For types that make no difference. */
  lemma DiscardAgrees(buf: seq<byte>, pos: nat, t: ColumnType, rows: nat)
    requires pos <= |buf| && Parsed(t) && !Parts(t)
    ensures AgreeAt(buf, pos, t, rows)
  {
    hide Discard, SkipData, Walk, Toss, LongTexts, WideCells, Differs, Streamable, Legible, IsBare;
    DiscardIsToss(buf, pos, t, rows);
    WalkIsSkip(false, buf, pos, t, rows);
    if IsBare(t) {
      if rows == 0 { NothingTossed(buf, pos, t); NothingWalked(buf, pos, t); } else { TopLeaf(buf, pos, t, rows); }
    } else {
      NameIsNothing(buf, pos, t, rows);
      if Walk(false, buf, pos, t, rows).Ok? && !LongTexts(false, buf, pos, t, rows) {
        TossFollows(false, buf, pos, t, rows);
      }
      if Toss(true, buf, pos, t, rows).Ok? && !WideCells(true, buf, pos, t, rows) {
        WalkFollows(false, buf, pos, t, rows);
      }
    }
  }

  lemma NothingWalked(buf: seq<byte>, pos: nat, t: ColumnType)
    requires pos <= |buf| && Streamable(t)
    ensures Walk(false, buf, pos, t, 0) == Ok(pos) && Toss(false, buf, pos, t, 0) == Ok(pos)
  {
  }

  /** On a buffer no longer than the column cap the two then succeed together. */
  lemma SmallBuffersAgree(buf: seq<byte>, pos: nat, t: ColumnType, rows: nat)
    requires pos <= |buf| <= pos + MAX_COLUMN_BYTES && Parsed(t) && !Parts(t)
    ensures SameEnd(Discard(buf, pos, t, rows), SkipData(buf, pos, t, rows))
  {
    hide Discard, SkipData, Walk, Toss, LongTexts, WideCells, Differs, Streamable, Legible, IsBare;
    DiscardAgrees(buf, pos, t, rows);
    DiscardIsToss(buf, pos, t, rows);
    WalkIsSkip(false, buf, pos, t, rows);
    if Walk(false, buf, pos, t, rows).Ok? && LongTexts(false, buf, pos, t, rows) {
      LongConsumes(false, buf, pos, t, rows);
    }
    if Toss(false, buf, pos, t, rows).Ok? && WideCells(false, buf, pos, t, rows) {
      WideConsumes(false, buf, pos, t, rows);
    }
  }

  // --------------------------------------------------------------------------
  // Where the caps part them
  // --------------------------------------------------------------------------

  /** Strings of an unknown type, as they are written: the skipper takes them always,
      the discarder exactly when prefixes and bytes together are within the column cap. */
  lemma WrittenTexts(t: ColumnType, items: seq<seq<byte>>)
    requires t.Other? && Domain(t) && items != []
    requires forall i :: 0 <= i < |items| ==> |items[i]| <= MAX_STRING_BYTES
    ensures var buf := Pack(items);
            && SkipData(buf, 0, t, |items|) == Ok(|buf|)
            && (if |buf| <= MAX_COLUMN_BYTES then Discard(buf, 0, t, |items|) == Ok(|buf|)
                else Discard(buf, 0, t, |items|).Err?)
  {
    hide SkipData, Discard, Domain, Pack, SkipStrings, CappedStrings, PackedSize, LayoutOf;
    var buf := Pack(items);
    assert Occurs(buf, 0, buf) by { assert buf[0..|buf|] == buf; }
    PackIsColumn(items, buf, 0);
    CappedExactly(buf, 0, |items|, 0);
    DataCases(buf, 0, t, |items|);
    OtherIsTexts(t);
    DiscardOther(buf, 0, t, |items|);
  }

  /** Four strings of 0xFFFFFF bytes: their lengths are within the column cap, but not
      with their prefixes. */
  lemma PrefixesAreCharged(t: ColumnType)
    requires t.Other? && Domain(t)
    ensures var s := Zeros(0xFFFFFF);
            var buf := Pack([s, s, s, s]);
            && 4 * |s| <= MAX_COLUMN_BYTES
            && SkipData(buf, 0, t, 4) == Ok(|buf|) && Discard(buf, 0, t, 4).Err?
  {
    hide SkipData, Discard, Domain, Zeros;
    var s := Zeros(0xFFFFFF);
    FourPacked(s);
    WrittenTexts(t, [s, s, s, s]);
  }

  lemma FourPacked(s: seq<byte>)
    requires |s| == 0xFFFFFF
    ensures |Pack([s, s, s, s])| == 4 * (4 + 0xFFFFFF)
  {
    hide Packed;
    assert |Packed(s)| == 4 + 0xFFFFFF by { FourBytes(); PackedLength(s); }
    assert [s, s, s, s][1..] == [s, s, s] && [s, s, s][1..] == [s, s] && [s, s][1..] == [s] && [s][1..] == [];
    assert |Pack([s])| == 4 + 0xFFFFFF;
    assert |Pack([s, s])| == 2 * (4 + 0xFFFFFF);
    assert |Pack([s, s, s])| == 3 * (4 + 0xFFFFFF);
  }

  lemma PackedLength(s: seq<byte>)
    ensures |Packed(s)| == |Encode(|s|)| + |s|
  {
  }

  lemma FourBytes()
    ensures |Encode(0xFFFFFF)| == 4
  {
    assert |Encode(0x7)| == 1;
    assert |Encode(0x3FF)| == 2;
    assert |Encode(0x1FFFF)| == 3;
  }
}
