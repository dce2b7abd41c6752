/** Where a type makes a difference, a column of one row shows it. */
module DiscardWitness {
  import opened Bytes
  import opened Limits
  import opened Varint
  import opened ColumnTypes
  import opened TypeNames
  import opened TypeRoundTrip
  import opened SkipSpec
  import opened StringColumn
  import opened WireFormat
  import opened FramingComplete
  import opened DiscardColumn
  import opened DiscardShape
  import opened DiscardAgreement

  // --------------------------------------------------------------------------
  // The smallest column
  // --------------------------------------------------------------------------

  /** A dictionary header with one-byte indexes. */
  function DictionaryStart(keys: nat): (s: seq<byte>)
    ensures |s| == 24
  {
    U64Bytes(1) + (U64Bytes(0x200) + U64Bytes(keys))
  }

  /** What stands in front of the parts of a type with one row, for `count` rows of
      the parts. */
  function HeadBytes(t: ColumnType, count: nat): (s: seq<byte>)
    requires !Kidless(t)
  {
    if t.Nullable? then [0]
    else if t.Array? || t.Map? then U64Bytes(count)
    else if t.LowCardinality? then DictionaryStart(count)
    else []
  }

  /** And behind them. */
  function TailBytes(t: ColumnType): (s: seq<byte>)
  {
    if t.LowCardinality? then U64Bytes(1) + [0] else []
  }

  /** The head counts the parts itself. */
  predicate Counting(t: ColumnType)
  {
    t.Array? || t.Map? || t.LowCardinality?
  }

  /** A column of one row that the discarder takes. */
  function Least(t: ColumnType): (s: seq<byte>)
    requires Streamable(t) && Takes(t)
    decreases TypeSize(t)
  {
    if Kidless(t) then LeastLeaf(t)
    else if Counting(t) then HeadBytes(t, 0) + TailBytes(t)
    else
      KidsBelow(t);
      HeadBytes(t, 1) + LeastList(Kids(t), TypeSize(t))
  }

  function LeastLeaf(t: ColumnType): (s: seq<byte>)
    requires Streamable(t) && Kidless(t) && LeafTakes(t)
  {
    if t.JSON? then U64Bytes(1) + [0]
    else if t.Enum16? then [1, 0]
    else if IsBare(t) then [0]
    else
      match LayoutOf(t)
      case Cells(width) => Zeros(width)
      case _ => [0]
  }

  function LeastList(ts: seq<ColumnType>, ghost bound: nat): (s: seq<byte>)
    requires AllStreamable(ts) && Below(ts, bound) && AllTake(ts, bound)
    decreases bound, |ts|
  {
    if ts == [] then [] else Least(ts[0]) + LeastList(ts[1..], bound)
  }

  // --------------------------------------------------------------------------
  // Heads and tails
  // --------------------------------------------------------------------------

  lemma HeadReads(buf: seq<byte>, pos: nat, t: ColumnType, count: nat)
    requires !Kidless(t) && count <= 1 && (Counting(t) || count == 1) && Occurs(buf, pos, HeadBytes(t, count))
    ensures Head(buf, pos, t, 1) == Ok((count, pos + |HeadBytes(t, count)|))
  {
    hide SkipOffsets, DictionaryHeader, Occurs, U64Bytes;
    if t.Array? || t.Map? {
      OffsetReads(buf, pos, count);
    } else if t.LowCardinality? {
      DictionaryReads(buf, pos, count);
    }
  }

  lemma OffsetReads(buf: seq<byte>, pos: nat, count: nat)
    requires count <= 1 && Occurs(buf, pos, U64Bytes(count))
    ensures SkipOffsets(buf, pos, 1) == Ok((count, pos + 8))
  {
    U64Complete(buf, pos, count);
    assert OffsetsFrom(buf, pos + 8, 0, count) == Ok(count);
    assert OffsetsFrom(buf, pos, 1, 0) == Ok(count);
  }

  lemma DictionaryReads(buf: seq<byte>, pos: nat, count: nat)
    requires count <= 1 && Occurs(buf, pos, DictionaryStart(count))
    ensures DictionaryHeader(buf, pos) == Ok((1, count, pos + 24))
  {
    hide Occurs, U64Bytes, LeValue;
    OccursConcat(buf, pos, U64Bytes(1), U64Bytes(0x200) + U64Bytes(count));
    OccursConcat(buf, pos + 8, U64Bytes(0x200), U64Bytes(count));
    U64Complete(buf, pos, 1);
    U64Complete(buf, pos + 8, 0x200);
    U64Complete(buf, pos + 16, count);
    assert IndexWidth(1, 0x200) == Ok(1);
  }

  lemma TailReads(buf: seq<byte>, pos: nat, end: nat, t: ColumnType, count: nat)
    requires pos <= |buf| && end <= |buf| && count <= 1 && !Kidless(t)
    requires Occurs(buf, pos, HeadBytes(t, count)) && Occurs(buf, end, TailBytes(t))
    ensures Tail(buf, pos, end, t, 1) == Ok(end + |TailBytes(t)|)
  {
    hide DictionaryHeader, Occurs, U64Bytes, U64At;
    if t.LowCardinality? {
      DictionaryReads(buf, pos, count);
      OccursConcat(buf, end, U64Bytes(1), [0]);
      U64Complete(buf, end, 1);
    }
  }

  /** A tail takes at least its bytes. */
  lemma TailLower(buf: seq<byte>, pos: nat, end: nat, t: ColumnType)
    requires pos <= |buf| && end <= |buf| && Tail(buf, pos, end, t, 1).Ok?
    ensures Tail(buf, pos, end, t, 1).value >= end + |TailBytes(t)|
  {
    hide LeValue;
  }

  /** So does a head. */
  lemma HeadLower(buf: seq<byte>, pos: nat, t: ColumnType)
    requires pos <= |buf| && !Kidless(t) && Head(buf, pos, t, 1).Ok?
    ensures Head(buf, pos, t, 1).value.1 >= pos + |HeadBytes(t, 0)| && |HeadBytes(t, 0)| == |HeadBytes(t, 1)|
    ensures !Counting(t) ==> Head(buf, pos, t, 1).value.0 == 1
  {
    hide LeValue, OffsetsFrom;
  }

  // --------------------------------------------------------------------------
  // The discarder takes the smallest column
  // --------------------------------------------------------------------------

  lemma SmallString(buf: seq<byte>, pos: nat, n: nat)
    requires n < 128 && pos + 1 + n <= |buf| && buf[pos] == n
    ensures VarintAt(buf, pos) == Ok((n, pos + 1))
    ensures SkipStrings(buf, pos, 1) == Ok(pos + 1 + n)
    ensures CappedStrings(buf, pos, 1, 0) == Ok(pos + 1 + n)
    ensures PackedSize(buf, pos, 1) == n + 1
  {
    assert VarintAt(buf, pos) == Ok((n, pos + 1));
    assert SkipStrings(buf, pos + 1 + n, 0) == Ok(pos + 1 + n);
    assert Encode(n) == [n];
    assert CappedStrings(buf, pos + 1 + n, 0, n + 1) == Ok(pos + 1 + n);
    NoStringsLeft(buf, pos + 1 + n, 0);
    StringStep(buf, pos, 1, 0);
  }

  lemma JsonReads(buf: seq<byte>, pos: nat)
    requires Occurs(buf, pos, U64Bytes(1) + [0])
    ensures SkipJson(buf, pos, 1) == Ok(pos + 9)
  {
    hide U64Bytes, SkipStrings, U64At;
    OccursConcat(buf, pos, U64Bytes(1), [0]);
    U64Complete(buf, pos, 1);
    assert buf[pos + 8..pos + 9] == [0];
    assert buf[pos + 8] == [0][0];
    SmallString(buf, pos + 8, 0);
  }

  lemma FirstByte(buf: seq<byte>, pos: nat, s: seq<byte>)
    requires Occurs(buf, pos, s) && s != []
    ensures buf[pos] == s[0]
  {
    assert buf[pos..pos + |s|][0] == s[0];
  }

  lemma LeastLeafTossed(buf: seq<byte>, pos: nat, t: ColumnType)
    requires Streamable(t) && Kidless(t) && LeafTakes(t) && Occurs(buf, pos, LeastLeaf(t))
    ensures TossLeaf(true, buf, pos, t, 1) == Ok(pos + |LeastLeaf(t)|) && !WideLeaf(true, t, 1)
  {
    hide LayoutOf, IsBare, TossLeaf, WideLeaf, LeastLeaf;
    if t.JSON? {
      JsonTossed(buf, pos, t);
    } else if IsBare(t) {
      BareLeastTossed(buf, pos, t);
    } else if LayoutOf(t).Texts? {
      TextTossed(buf, pos, t);
    } else {
      CellsTossed(buf, pos, t);
    }
  }

  lemma JsonTossed(buf: seq<byte>, pos: nat, t: ColumnType)
    requires t.JSON? && Occurs(buf, pos, LeastLeaf(t))
    ensures TossLeaf(true, buf, pos, t, 1) == Ok(pos + |LeastLeaf(t)|) && !WideLeaf(true, t, 1)
  {
    hide SkipJson, U64Bytes;
    JsonReads(buf, pos);
  }

  lemma BareLeastTossed(buf: seq<byte>, pos: nat, t: ColumnType)
    requires IsBare(t) && Occurs(buf, pos, LeastLeaf(t))
    ensures TossLeaf(true, buf, pos, t, 1) == Ok(pos + |LeastLeaf(t)|) && !WideLeaf(true, t, 1)
  {
    hide CappedStrings;
    FirstByte(buf, pos, LeastLeaf(t));
    SmallString(buf, pos, |LeastLeaf(t)| - 1);
  }

  lemma TextTossed(buf: seq<byte>, pos: nat, t: ColumnType)
    requires Streamable(t) && Kidless(t) && !t.JSON? && !IsBare(t) && LayoutOf(t).Texts? && Occurs(buf, pos, LeastLeaf(t))
    ensures TossLeaf(true, buf, pos, t, 1) == Ok(pos + |LeastLeaf(t)|) && !WideLeaf(true, t, 1)
  {
    hide SkipStrings, CappedStrings, LayoutOf, IsBare;
    NotEnum(t);
    FirstByte(buf, pos, LeastLeaf(t));
    SmallString(buf, pos, 0);
  }

  lemma NotEnum(t: ColumnType)
    requires !IsBare(t)
    ensures !t.Enum16?
  {
  }

  lemma CellsTossed(buf: seq<byte>, pos: nat, t: ColumnType)
    requires Streamable(t) && Kidless(t) && LeafTakes(t) && !t.JSON? && !IsBare(t) && !LayoutOf(t).Texts?
    requires Occurs(buf, pos, LeastLeaf(t))
    ensures TossLeaf(true, buf, pos, t, 1) == Ok(pos + |LeastLeaf(t)|) && !WideLeaf(true, t, 1)
  {
    hide LayoutOf, IsBare;
    NotEnum(t);
    OtherIsTexts(t);
  }

  lemma {:induction false} LeastTossed(buf: seq<byte>, pos: nat, t: ColumnType)
    requires Streamable(t) && Takes(t) && Occurs(buf, pos, Least(t))
    ensures Toss(true, buf, pos, t, 1) == Ok(pos + |Least(t)|) && !WideCells(true, buf, pos, t, 1)
    decreases TypeSize(t), 2, 0
  {
    hide Occurs, TossLeaf, TossList, WideList, LeastLeaf, LeastList, HeadBytes, TailBytes, Kids, WideLeaf;
    if Kidless(t) {
      LeastLeafTossed(buf, pos, t);
    } else if Counting(t) {
      CountedTossed(buf, pos, t);
    } else {
      PartsTossed(buf, pos, t);
    }
  }

  lemma CountedTossed(buf: seq<byte>, pos: nat, t: ColumnType)
    requires Streamable(t) && !Kidless(t) && Counting(t) && Occurs(buf, pos, HeadBytes(t, 0) + TailBytes(t))
    ensures Toss(true, buf, pos, t, 1) == Ok(pos + |HeadBytes(t, 0) + TailBytes(t)|) && !WideCells(true, buf, pos, t, 1)
  {
    hide Occurs, Head, Tail, TossList, WideList, HeadBytes, TailBytes, Kids;
    KidsBelow(t);
    OccursConcat(buf, pos, HeadBytes(t, 0), TailBytes(t));
    HeadReads(buf, pos, t, 0);
    var p := pos + |HeadBytes(t, 0)|;
    NoRowsWalked(false, buf, p, Kids(t), TypeSize(t));
    NoRowsWide(buf, p, Kids(t), TypeSize(t));
    TailReads(buf, pos, p, t, 0);
  }

  lemma {:induction false} PartsTossed(buf: seq<byte>, pos: nat, t: ColumnType)
    requires Streamable(t) && !Kidless(t) && !Counting(t) && Takes(t) && Occurs(buf, pos, Least(t))
    ensures Toss(true, buf, pos, t, 1) == Ok(pos + |Least(t)|) && !WideCells(true, buf, pos, t, 1)
    decreases TypeSize(t), 1, 0
  {
    hide Occurs, Head, Tail, TossList, WideList, LeastList, HeadBytes, TailBytes, Kids, Toss, WideCells, Streamable;
    hide Takes, Least, Kidless, AllTake;
    PlainParts(false, t);
    OccursConcat(buf, pos, HeadBytes(t, 1), LeastList(Kids(t), TypeSize(t)));
    HeadReads(buf, pos, t, 1);
    NodeRuns(false, buf, pos, t, pos + |HeadBytes(t, 1)|);
    LeastListTossed(buf, pos + |HeadBytes(t, 1)|, Kids(t), TypeSize(t));
    NoTail(buf, pos, pos + |Least(t)|, t);
  }

  lemma NoTail(buf: seq<byte>, pos: nat, end: nat, t: ColumnType)
    requires pos <= |buf| && end <= |buf| && !t.LowCardinality?
    ensures Tail(buf, pos, end, t, 1) == Ok(end) && TailBytes(t) == []
  {
  }

  lemma {:induction false} LeastListTossed(buf: seq<byte>, pos: nat, ts: seq<ColumnType>, bound: nat)
    requires AllStreamable(ts) && Below(ts, bound) && AllTake(ts, bound) && Occurs(buf, pos, LeastList(ts, bound))
    ensures TossList(buf, pos, ts, 1, bound) == Ok(pos + |LeastList(ts, bound)|) && !WideList(buf, pos, ts, 1, bound)
    decreases bound, 0, |ts|
  {
    hide Occurs, Toss, WideCells, Takes, Least, Streamable;
    if ts != [] {
      OccursConcat(buf, pos, Least(ts[0]), LeastList(ts[1..], bound));
      LeastTossed(buf, pos, ts[0]);
      LeastListTossed(buf, pos + |Least(ts[0])|, ts[1..], bound);
    }
  }

  lemma {:induction false} NoRowsWide(buf: seq<byte>, pos: nat, ts: seq<ColumnType>, bound: nat)
    requires pos <= |buf| && AllStreamable(ts) && Below(ts, bound)
    ensures !WideList(buf, pos, ts, 0, bound) && forall dict :: !LongList(dict, buf, pos, ts, 0, bound)
    decreases |ts|
  {
    hide Streamable;
    if ts != [] {
      NoRowsWide(buf, pos, ts[1..], bound);
    }
  }

  // --------------------------------------------------------------------------
  // The skipper takes it too, unless it is barred
  // --------------------------------------------------------------------------

  /** The skipper refuses a part that the discarder takes. */
  predicate Barred(dict: bool, t: ColumnType)
    requires Streamable(t)
    decreases TypeSize(t)
  {
    if Kidless(t) then t.AggregateFunction? || t.SimpleAggregateFunction? || (dict && t.JSON?)
    else
      KidsBelow(t);
      && AllTake(Kids(t), TypeSize(t))
      && SomeBarred(dict || t.LowCardinality?, Kids(t), TypeSize(t))
  }

  predicate SomeBarred(dict: bool, ts: seq<ColumnType>, ghost bound: nat)
    requires AllStreamable(ts) && Below(ts, bound)
    decreases bound, |ts|
  {
    ts != [] && (Barred(dict, ts[0]) || SomeBarred(dict, ts[1..], bound))
  }

  lemma {:induction false} BarredDiffers(dict: bool, t: ColumnType)
    requires Streamable(t) && Barred(dict, t)
    ensures Differs(dict, t)
    decreases TypeSize(t)
  {
    if !Kidless(t) {
      KidsBelow(t);
      SomeBarredDiffers(dict || t.LowCardinality?, Kids(t), TypeSize(t));
    }
  }

  lemma {:induction false} SomeBarredDiffers(dict: bool, ts: seq<ColumnType>, bound: nat)
    requires AllStreamable(ts) && Below(ts, bound) && SomeBarred(dict, ts, bound)
    ensures SomeDiffers(dict, ts, bound)
    decreases bound, |ts|
  {
    hide Barred, Differs;
    if Barred(dict, ts[0]) {
      BarredDiffers(dict, ts[0]);
    } else {
      SomeBarredDiffers(dict, ts[1..], bound);
    }
  }

  lemma LeastLeafWalked(dict: bool, buf: seq<byte>, pos: nat, t: ColumnType)
    requires Streamable(t) && Kidless(t) && LeafTakes(t) && !Barred(dict, t) && Occurs(buf, pos, LeastLeaf(t))
    ensures WalkLeaf(dict, buf, pos, t, 1) == Ok(pos + |LeastLeaf(t)|) && !LongTexts(dict, buf, pos, t, 1)
  {
    hide LayoutOf, WalkLeaf, TossLeaf, LeastLeaf, WideLeaf, PackedSize;
    if t.Enum8? || t.Enum16? {
      EnumWalked(dict, buf, pos, t);
    } else {
      LeastLeafTossed(buf, pos, t);
      LeafPrecedes(dict, buf, pos, t, 1);
      if t.Other? {
        OtherIsTexts(t);
        assert LeastLeaf(t) == [0] by { OtherLeast(t); }
        FirstByte(buf, pos, LeastLeaf(t));
        SmallString(buf, pos, 0);
      }
    }
  }

  lemma OtherLeast(t: ColumnType)
    requires t.Other?
    ensures LeastLeaf(t) == [0]
  {
  }

  lemma EnumWalked(dict: bool, buf: seq<byte>, pos: nat, t: ColumnType)
    requires (t.Enum8? || t.Enum16?) && Occurs(buf, pos, LeastLeaf(t))
    ensures WalkLeaf(dict, buf, pos, t, 1) == Ok(pos + |LeastLeaf(t)|) && !LongTexts(dict, buf, pos, t, 1)
  {
  }

  lemma {:induction false} LeastWalked(dict: bool, buf: seq<byte>, pos: nat, t: ColumnType)
    requires Streamable(t) && Takes(t) && !Barred(dict, t) && Occurs(buf, pos, Least(t))
    ensures Walk(dict, buf, pos, t, 1) == Ok(pos + |Least(t)|) && !LongTexts(dict, buf, pos, t, 1)
    decreases TypeSize(t), 2, 0
  {
    hide Occurs, WalkLeaf, WalkList, LongList, LeastLeaf, LeastList, HeadBytes, TailBytes, Kids;
    if Kidless(t) {
      LeastLeafWalked(dict, buf, pos, t);
    } else if Counting(t) {
      CountedWalked(dict, buf, pos, t);
    } else {
      PartsWalked(dict, buf, pos, t);
    }
  }

  lemma CountedWalked(dict: bool, buf: seq<byte>, pos: nat, t: ColumnType)
    requires Streamable(t) && !Kidless(t) && Counting(t) && Occurs(buf, pos, HeadBytes(t, 0) + TailBytes(t))
    ensures Walk(dict, buf, pos, t, 1) == Ok(pos + |HeadBytes(t, 0) + TailBytes(t)|) && !LongTexts(dict, buf, pos, t, 1)
  {
    hide Occurs, Head, Tail, WalkList, LongList, HeadBytes, TailBytes, Kids;
    KidsBelow(t);
    OccursConcat(buf, pos, HeadBytes(t, 0), TailBytes(t));
    HeadReads(buf, pos, t, 0);
    var p := pos + |HeadBytes(t, 0)|;
    NoRowsWalked(dict || t.LowCardinality?, buf, p, Kids(t), TypeSize(t));
    NoRowsWide(buf, p, Kids(t), TypeSize(t));
    TailReads(buf, pos, p, t, 0);
  }

  /** A type without a count of its own, part by part. */
  lemma PlainParts(dict: bool, t: ColumnType)
    requires Streamable(t) && !Kidless(t) && !Counting(t) && Takes(t)
    ensures AllStreamable(Kids(t)) && Below(Kids(t), TypeSize(t)) && AllTake(Kids(t), TypeSize(t))
    ensures !Barred(dict, t) ==> !SomeBarred(dict, Kids(t), TypeSize(t))
    ensures Least(t) == HeadBytes(t, 1) + LeastList(Kids(t), TypeSize(t))
  {
    hide Kids, LeastList, AllTake, SomeBarred, HeadBytes, Streamable;
    KidsBelow(t);
  }

  lemma {:induction false} PartsWalked(dict: bool, buf: seq<byte>, pos: nat, t: ColumnType)
    requires Streamable(t) && !Kidless(t) && !Counting(t) && Takes(t) && !Barred(dict, t) && Occurs(buf, pos, Least(t))
    ensures Walk(dict, buf, pos, t, 1) == Ok(pos + |Least(t)|) && !LongTexts(dict, buf, pos, t, 1)
    decreases TypeSize(t), 1, 0
  {
    hide Occurs, Head, Tail, WalkList, LongList, LeastList, HeadBytes, TailBytes, Kids, Walk, LongTexts, Streamable;
    hide Takes, Barred, Least, Kidless, AllTake, SomeBarred;
    PlainParts(dict, t);
    OccursConcat(buf, pos, HeadBytes(t, 1), LeastList(Kids(t), TypeSize(t)));
    HeadReads(buf, pos, t, 1);
    NodeRuns(dict, buf, pos, t, pos + |HeadBytes(t, 1)|);
    LeastListWalked(dict, buf, pos + |HeadBytes(t, 1)|, Kids(t), TypeSize(t));
    NoTail(buf, pos, pos + |Least(t)|, t);
  }

  lemma {:induction false} LeastListWalked(dict: bool, buf: seq<byte>, pos: nat, ts: seq<ColumnType>, bound: nat)
    requires AllStreamable(ts) && Below(ts, bound) && AllTake(ts, bound) && !SomeBarred(dict, ts, bound)
    requires Occurs(buf, pos, LeastList(ts, bound))
    ensures WalkList(dict, buf, pos, ts, 1, bound) == Ok(pos + |LeastList(ts, bound)|)
    ensures !LongList(dict, buf, pos, ts, 1, bound)
    decreases bound, 0, |ts|
  {
    hide Occurs, Walk, LongTexts, Takes, Least, Streamable, Barred;
    if ts != [] {
      OccursConcat(buf, pos, Least(ts[0]), LeastList(ts[1..], bound));
      LeastWalked(dict, buf, pos, ts[0]);
      LeastListWalked(dict, buf, pos + |Least(ts[0])|, ts[1..], bound);
    }
  }

  // --------------------------------------------------------------------------
  // Without a difference no column is smaller
  // --------------------------------------------------------------------------

  lemma LeafLower(buf: seq<byte>, pos: nat, t: ColumnType)
    requires pos <= |buf| && Streamable(t) && Kidless(t) && LeafTakes(t) && !IsBare(t)
    requires TossLeaf(true, buf, pos, t, 1).Ok?
    ensures TossLeaf(true, buf, pos, t, 1).value >= pos + |LeastLeaf(t)|
  {
    hide LayoutOf, IsBare, VarintAt, LeValue;
    NotEnum(t);
    OtherIsTexts(t);
  }

  lemma {:induction false} LeastLower(dict: bool, buf: seq<byte>, pos: nat, t: ColumnType)
    requires pos <= |buf| && Streamable(t) && Takes(t) && !Differs(dict, t) && Toss(true, buf, pos, t, 1).Ok?
    ensures Toss(true, buf, pos, t, 1).value >= pos + |Least(t)|
    decreases TypeSize(t), 2, 0
  {
    hide Head, Tail, TossLeaf, TossList, LeastLeaf, LeastList, HeadBytes, TailBytes, Kids;
    if Kidless(t) {
      LeafLower(buf, pos, t);
    } else {
      KidsBelow(t);
      HeadLower(buf, pos, t);
      var (n, p) := Head(buf, pos, t, 1).value;
      var q := TossList(buf, p, Kids(t), n, TypeSize(t)).value;
      if Counting(t) {
        TailLower(buf, pos, q, t);
      } else {
        NoTail(buf, pos, q, t);
        LeastListLower(dict, buf, p, Kids(t), TypeSize(t));
      }
    }
  }

  lemma {:induction false} LeastListLower(dict: bool, buf: seq<byte>, pos: nat, ts: seq<ColumnType>, bound: nat)
    requires pos <= |buf| && AllStreamable(ts) && Below(ts, bound) && AllTake(ts, bound) && !SomeDiffers(dict, ts, bound)
    requires TossList(buf, pos, ts, 1, bound).Ok?
    ensures TossList(buf, pos, ts, 1, bound).value >= pos + |LeastList(ts, bound)|
    decreases bound, 0, |ts|
  {
    hide Toss, Takes, Least, Streamable, Differs;
    if ts != [] {
      LeastLower(dict, buf, pos, ts[0]);
      LeastListLower(dict, buf, Toss(true, buf, pos, ts[0], 1).value, ts[1..], bound);
    }
  }

  // --------------------------------------------------------------------------
  // The column that shows the difference
  // --------------------------------------------------------------------------

  /** An Enum cell that is a string too long to the discarder; a barred type as the
      smallest string; the last such part of a list, the first if it is barred. */
  function Clash(dict: bool, t: ColumnType): (s: seq<byte>)
    requires Streamable(t) && Differs(dict, t)
    decreases TypeSize(t)
  {
    if Kidless(t) then
      if t.Enum8? then [1] else if t.Enum16? then [2, 0] else LeastLeaf(t)
    else
      KidsBelow(t);
      HeadBytes(t, 1) + (ClashList(dict || t.LowCardinality?, Kids(t), TypeSize(t)) + TailBytes(t))
  }

  function ClashList(dict: bool, ts: seq<ColumnType>, ghost bound: nat): (s: seq<byte>)
    requires AllStreamable(ts) && Below(ts, bound) && AllTake(ts, bound) && SomeDiffers(dict, ts, bound)
    decreases bound, |ts|
  {
    if Barred(dict, ts[0]) then
      BarredDiffers(dict, ts[0]);
      Clash(dict, ts[0]) + LeastList(ts[1..], bound)
    else if SomeDiffers(dict, ts[1..], bound) then Least(ts[0]) + ClashList(dict, ts[1..], bound)
    else Clash(dict, ts[0]) + LeastList(ts[1..], bound)
  }

  /** It fails or goes too far. */
  predicate Beyond(r: Result<nat>, end: nat)
  {
    r.Err? || r.value > end
  }

  /** What the two do with the clash. */
  ghost predicate Clashes(barred: bool, walk: Result<nat>, toss: Result<nat>, long: bool, wide: bool, end: nat)
  {
    if barred then walk.Err? && toss == Ok(end) && !wide
    else walk == Ok(end) && !long && Beyond(toss, end)
  }

  lemma {:induction false} ClashLeafParts(dict: bool, buf: seq<byte>, pos: nat, t: ColumnType)
    requires Streamable(t) && Kidless(t) && Differs(dict, t) && Occurs(buf, pos, Clash(dict, t))
    ensures Clashes(Barred(dict, t), WalkLeaf(dict, buf, pos, t, 1), TossLeaf(true, buf, pos, t, 1),
                    LongTexts(dict, buf, pos, t, 1), WideLeaf(true, t, 1), pos + |Clash(dict, t)|)
  {
    hide LayoutOf, WalkLeaf, TossLeaf, LeastLeaf, WideLeaf, PackedSize;
    if t.Enum8? || t.Enum16? {
      EnumClash(dict, buf, pos, t);
    } else {
      LeastLeafTossed(buf, pos, t);
      BarredLeaf(dict, buf, pos, t);
    }
  }

  lemma BarredLeaf(dict: bool, buf: seq<byte>, pos: nat, t: ColumnType)
    requires pos <= |buf| && Streamable(t) && Kidless(t) && Barred(dict, t)
    ensures WalkLeaf(dict, buf, pos, t, 1).Err?
  {
  }

  lemma EnumClash(dict: bool, buf: seq<byte>, pos: nat, t: ColumnType)
    requires (t.Enum8? || t.Enum16?) && Occurs(buf, pos, if t.Enum8? then [1] else [2, 0])
    ensures var end := pos + if t.Enum8? then 1 else 2;
            && WalkLeaf(dict, buf, pos, t, 1) == Ok(end) && !LongTexts(dict, buf, pos, t, 1)
            && Beyond(TossLeaf(true, buf, pos, t, 1), end)
  {
    hide CappedStrings;
    var s: seq<byte> := if t.Enum8? then [1] else [2, 0];
    FirstByte(buf, pos, s);
    LongString(buf, pos, |s|);
  }

  lemma LongString(buf: seq<byte>, pos: nat, n: nat)
    requires 0 < n < 128 && pos < |buf| && buf[pos] == n
    ensures Beyond(CappedStrings(buf, pos, 1, 0), pos + n)
  {
    assert VarintAt(buf, pos) == Ok((n, pos + 1));
  }

  lemma {:induction false} ClashParts(dict: bool, buf: seq<byte>, pos: nat, t: ColumnType)
    requires Streamable(t) && Differs(dict, t) && Occurs(buf, pos, Clash(dict, t))
    ensures Clashes(Barred(dict, t), Walk(dict, buf, pos, t, 1), Toss(true, buf, pos, t, 1),
                    LongTexts(dict, buf, pos, t, 1), WideCells(true, buf, pos, t, 1), pos + |Clash(dict, t)|)
    decreases TypeSize(t), 2, 0
  {
    hide Walk, Toss, LongTexts, WideCells, Clash, Clashes, Occurs, Differs, Barred, Streamable;
    if Kidless(t) {
      ClashLeafIs(dict, buf, pos, t);
    } else {
      ClashNodeParts(dict, buf, pos, t);
    }
  }

  lemma ClashLeafIs(dict: bool, buf: seq<byte>, pos: nat, t: ColumnType)
    requires Streamable(t) && Kidless(t) && Differs(dict, t) && Occurs(buf, pos, Clash(dict, t))
    ensures Clashes(Barred(dict, t), Walk(dict, buf, pos, t, 1), Toss(true, buf, pos, t, 1),
                    LongTexts(dict, buf, pos, t, 1), WideCells(true, buf, pos, t, 1), pos + |Clash(dict, t)|)
  {
    hide WalkLeaf, TossLeaf, WideLeaf, Clash, Barred, Differs, LongTexts, Clashes, Occurs;
    ClashLeafParts(dict, buf, pos, t);
  }

  /** One step into the parts. */
  lemma NodeRuns(dict: bool, buf: seq<byte>, pos: nat, t: ColumnType, p: nat)
    requires pos <= |buf| && Streamable(t) && !Kidless(t) && Head(buf, pos, t, 1) == Ok((1, p))
    requires AllStreamable(Kids(t)) && Below(Kids(t), TypeSize(t))
    ensures Walk(dict, buf, pos, t, 1) ==
            var q := WalkList(dict || t.LowCardinality?, buf, p, Kids(t), 1, TypeSize(t));
            if q.Err? then q else Tail(buf, pos, q.value, t, 1)
    ensures Toss(true, buf, pos, t, 1) ==
            var q := TossList(buf, p, Kids(t), 1, TypeSize(t));
            if q.Err? then q else Tail(buf, pos, q.value, t, 1)
    ensures LongTexts(dict, buf, pos, t, 1) == LongList(dict || t.LowCardinality?, buf, p, Kids(t), 1, TypeSize(t))
    ensures WideCells(true, buf, pos, t, 1) == WideList(buf, p, Kids(t), 1, TypeSize(t))
  {
    hide Head, Tail, WalkList, TossList, LongList, WideList, Kids, Kidless;
  }

  lemma {:induction false} ClashNodeParts(dict: bool, buf: seq<byte>, pos: nat, t: ColumnType)
    requires Streamable(t) && !Kidless(t) && Differs(dict, t) && Occurs(buf, pos, Clash(dict, t))
    ensures Clashes(Barred(dict, t), Walk(dict, buf, pos, t, 1), Toss(true, buf, pos, t, 1),
                    LongTexts(dict, buf, pos, t, 1), WideCells(true, buf, pos, t, 1), pos + |Clash(dict, t)|)
    decreases TypeSize(t), 1, 0
  {
    hide Occurs, Head, Tail, WalkList, TossList, LongList, WideList, ClashList, HeadBytes, TailBytes, Kids, Streamable;
    hide Walk, Toss, LongTexts, WideCells, Kidless, Clashes, AllTake, SomeDiffers, SomeBarred;
    KidsBelow(t);
    var inner := dict || t.LowCardinality?;
    var parts := ClashList(inner, Kids(t), TypeSize(t));
    OccursConcat(buf, pos, HeadBytes(t, 1), parts + TailBytes(t));
    var p := pos + |HeadBytes(t, 1)|;
    OccursConcat(buf, p, parts, TailBytes(t));
    HeadReads(buf, pos, t, 1);
    NodeRuns(dict, buf, pos, t, p);
    ClashListParts(inner, buf, p, Kids(t), TypeSize(t));
    TailReads(buf, pos, p + |parts|, t, 1);
    var walk, toss := WalkList(inner, buf, p, Kids(t), 1, TypeSize(t)), TossList(buf, p, Kids(t), 1, TypeSize(t));
    TailClashes(SomeBarred(inner, Kids(t), TypeSize(t)), buf, pos, t, walk, toss,
                LongTexts(dict, buf, pos, t, 1), WideCells(true, buf, pos, t, 1), p + |parts|);
  }

  /** The difference survives the tail. */
  lemma TailClashes(barred: bool, buf: seq<byte>, pos: nat, t: ColumnType, walk: Result<nat>, toss: Result<nat>,
                    long: bool, wide: bool, end: nat)
    requires pos <= |buf| && end <= |buf| && (walk.Ok? ==> walk.value <= |buf|) && (toss.Ok? ==> toss.value <= |buf|)
    requires Clashes(barred, walk, toss, long, wide, end) && Tail(buf, pos, end, t, 1) == Ok(end + |TailBytes(t)|)
    ensures Clashes(barred,
                    if walk.Err? then walk else Tail(buf, pos, walk.value, t, 1),
                    if toss.Err? then toss else Tail(buf, pos, toss.value, t, 1),
                    long, wide, end + |TailBytes(t)|)
  {
    hide Tail, TailBytes;
    if toss.Ok? && Tail(buf, pos, toss.value, t, 1).Ok? {
      TailLower(buf, pos, toss.value, t);
    }
  }

  lemma {:induction false} ClashListParts(dict: bool, buf: seq<byte>, pos: nat, ts: seq<ColumnType>, bound: nat)
    requires AllStreamable(ts) && Below(ts, bound) && AllTake(ts, bound) && SomeDiffers(dict, ts, bound)
    requires Occurs(buf, pos, ClashList(dict, ts, bound))
    ensures Clashes(SomeBarred(dict, ts, bound), WalkList(dict, buf, pos, ts, 1, bound), TossList(buf, pos, ts, 1, bound),
                    LongList(dict, buf, pos, ts, 1, bound), WideList(buf, pos, ts, 1, bound),
                    pos + |ClashList(dict, ts, bound)|)
    decreases bound, 0, 2 * |ts| + 1
  {
    hide WalkList, TossList, LongList, WideList, ClashList, Clashes, Occurs, Differs, Barred, Streamable;
    if Barred(dict, ts[0]) {
      BarredFirst(dict, buf, pos, ts, bound);
    } else if SomeDiffers(dict, ts[1..], bound) {
      LaterClash(dict, buf, pos, ts, bound);
    } else {
      LastClash(dict, buf, pos, ts, bound);
    }
  }

  lemma {:induction false} BarredFirst(dict: bool, buf: seq<byte>, pos: nat, ts: seq<ColumnType>, bound: nat)
    requires ts != [] && AllStreamable(ts) && Below(ts, bound) && AllTake(ts, bound) && SomeDiffers(dict, ts, bound)
    requires Barred(dict, ts[0]) && Occurs(buf, pos, ClashList(dict, ts, bound))
    ensures Clashes(SomeBarred(dict, ts, bound), WalkList(dict, buf, pos, ts, 1, bound), TossList(buf, pos, ts, 1, bound),
                    LongList(dict, buf, pos, ts, 1, bound), WideList(buf, pos, ts, 1, bound),
                    pos + |ClashList(dict, ts, bound)|)
    decreases bound, 0, 2 * |ts|
  {
    hide Occurs, Walk, Toss, LongTexts, WideCells, Takes, Clash, LeastList, Streamable, Barred, Differs;
    BarredDiffers(dict, ts[0]);
    OccursConcat(buf, pos, Clash(dict, ts[0]), LeastList(ts[1..], bound));
    ClashParts(dict, buf, pos, ts[0]);
    LeastListTossed(buf, pos + |Clash(dict, ts[0])|, ts[1..], bound);
  }

  lemma {:induction false} LaterClash(dict: bool, buf: seq<byte>, pos: nat, ts: seq<ColumnType>, bound: nat)
    requires ts != [] && AllStreamable(ts) && Below(ts, bound) && AllTake(ts, bound) && SomeDiffers(dict, ts[1..], bound)
    requires !Barred(dict, ts[0]) && Occurs(buf, pos, ClashList(dict, ts, bound))
    ensures Clashes(SomeBarred(dict, ts, bound), WalkList(dict, buf, pos, ts, 1, bound), TossList(buf, pos, ts, 1, bound),
                    LongList(dict, buf, pos, ts, 1, bound), WideList(buf, pos, ts, 1, bound),
                    pos + |ClashList(dict, ts, bound)|)
    decreases bound, 0, 2 * |ts|
  {
    hide Occurs, Walk, Toss, LongTexts, WideCells, Takes, Clash, Least, Streamable, Barred, Differs;
    OccursConcat(buf, pos, Least(ts[0]), ClashList(dict, ts[1..], bound));
    LeastTossed(buf, pos, ts[0]);
    LeastWalked(dict, buf, pos, ts[0]);
    ClashListParts(dict, buf, pos + |Least(ts[0])|, ts[1..], bound);
  }

  lemma {:induction false} LastClash(dict: bool, buf: seq<byte>, pos: nat, ts: seq<ColumnType>, bound: nat)
    requires ts != [] && AllStreamable(ts) && Below(ts, bound) && AllTake(ts, bound)
    requires Differs(dict, ts[0]) && !SomeDiffers(dict, ts[1..], bound)
    requires !Barred(dict, ts[0]) && Occurs(buf, pos, ClashList(dict, ts, bound))
    ensures Clashes(SomeBarred(dict, ts, bound), WalkList(dict, buf, pos, ts, 1, bound), TossList(buf, pos, ts, 1, bound),
                    LongList(dict, buf, pos, ts, 1, bound), WideList(buf, pos, ts, 1, bound),
                    pos + |ClashList(dict, ts, bound)|)
    decreases bound, 0, 2 * |ts|
  {
    hide Occurs, Walk, Toss, LongTexts, WideCells, Takes, Clash, LeastList, Streamable, Barred, Differs;
    if SomeBarred(dict, ts[1..], bound) {
      SomeBarredDiffers(dict, ts[1..], bound);
    }
    OccursConcat(buf, pos, Clash(dict, ts[0]), LeastList(ts[1..], bound));
    ClashParts(dict, buf, pos, ts[0]);
    LeastListWalked(dict, buf, pos + |Clash(dict, ts[0])|, ts[1..], bound);
    var p := Toss(true, buf, pos, ts[0], 1);
    if p.Ok? && TossList(buf, p.value, ts[1..], 1, bound).Ok? {
      LeastListLower(dict, buf, p.value, ts[1..], bound);
    }
  }

  // --------------------------------------------------------------------------
  // The exact condition
  // --------------------------------------------------------------------------

  lemma ClashSeen(barred: bool, buf: seq<byte>, t: ColumnType, end: nat)
    requires Parsed(t) && !IsBare(t)
    requires Clashes(barred, Walk(false, buf, 0, t, 1), Toss(true, buf, 0, t, 1),
                     LongTexts(false, buf, 0, t, 1), WideCells(true, buf, 0, t, 1), end)
    ensures !AgreeAt(buf, 0, t, 1)
  {
    hide Discard, SkipData, Walk, Toss, LongTexts, WideCells, Streamable, Legible, IsBare;
    NameIsNothing(buf, 0, t, 1);
    DiscardIsToss(buf, 0, t, 1);
    WalkIsSkip(false, buf, 0, t, 1);
  }

  /** Where a type makes a difference, one takes a column of one row that the other
      does not take to the same end. */
  lemma DiscardDiffers(t: ColumnType)
    requires Parsed(t) && Parts(t)
    ensures !AgreeAt(Clash(false, t), 0, t, 1)
  {
    hide AgreeAt, Walk, Toss, LongTexts, WideCells, Differs, Barred, Clash, Clashes, Streamable, Legible, IsBare;
    var buf := Clash(false, t);
    assert Occurs(buf, 0, buf) by { assert buf[0..|buf|] == buf; }
    ClashParts(false, buf, 0, t);
    ClashSeen(Barred(false, t), buf, t, |buf|);
  }

  /** The streaming discarder and the skipper agree on every buffer, for every number
      of rows, up to the two caps, exactly when no type below a constructor makes a
      difference. */
  lemma DiscardExactly(t: ColumnType)
    requires Parsed(t)
    ensures (forall buf: seq<byte>, pos: nat, rows: nat :: pos <= |buf| ==> AgreeAt(buf, pos, t, rows)) <==> !Parts(t)
  {
    hide AgreeAt, Parts, Streamable, Legible;
    if Parts(t) {
      DiscardDiffers(t);
    } else {
      forall buf: seq<byte>, pos: nat, rows: nat | pos <= |buf|
        ensures AgreeAt(buf, pos, t, rows)
      {
        DiscardAgrees(buf, pos, t, rows);
      }
    }
  }
}
