/** Variant and Dynamic rows are grouped by type on the wire. Scattering the
    groups back by discriminator is the inverse of grouping. */
module ScatterGather {
  import opened Bytes
  import opened SkipSpec
  import opened VariantDecode

  // --------------------------------------------------------------------------
  // Grouping
  // --------------------------------------------------------------------------

  /** The discriminators of the rows: the type index of a row that has a value,
      any number outside the type indexes for NULL. */
  predicate Marks(discs: seq<nat>, rows: seq<Row>, types: nat)
  {
    && |discs| == |rows|
    && forall i :: 0 <= i < |rows| ==>
         if rows[i].Some? then discs[i] == rows[i].value.0 < types else types <= discs[i]
  }

  /** The values of the rows of type `t`, in row order. */
  function Picked(rows: seq<Row>, t: nat): (values: seq<Value>)
  {
    if rows == [] then []
    else
      var last := rows[|rows| - 1];
      Picked(rows[..|rows| - 1], t) + if last.Some? && last.value.0 == t then [last.value.1] else []
  }

  function Gather(rows: seq<Row>, types: nat): (columns: seq<seq<Value>>)
    ensures |columns| == types
    ensures forall t :: 0 <= t < types ==> columns[t] == Picked(rows, t)
  {
    seq(types, t requires 0 <= t < types => Picked(rows, t))
  }

  lemma {:induction false} PickedCount(discs: seq<nat>, rows: seq<Row>, types: nat, t: nat)
    requires Marks(discs, rows, types) && t < types
    ensures |Picked(rows, t)| == CountOf(discs, t)
    decreases |rows|
  {
    if rows != [] {
      PickedCount(discs[..|rows| - 1], rows[..|rows| - 1], types, t);
    }
  }

  // --------------------------------------------------------------------------
  // Row i takes the next unused value of its subcolumn
  // --------------------------------------------------------------------------

  /** Each subcolumn has at least as many values as there are rows naming it. */
  ghost predicate Enough(discs: seq<nat>, columns: seq<seq<Value>>)
  {
    forall t :: 0 <= t < |columns| ==> CountOf(discs, t) <= |columns[t]|
  }

  lemma {:induction false} CountBefore(discs: seq<nat>, i: nat)
    requires i < |discs|
    ensures CountOf(discs[..i], discs[i]) < CountOf(discs, discs[i])
    decreases |discs|
  {
    var front := discs[..|discs| - 1];
    if i < |discs| - 1 {
      CountBefore(front, i);
      assert front[..i] == discs[..i];
    }
  }

  /** The value of row `i`: of its subcolumn, the one behind those of the
      earlier rows of the same type. */
  ghost function RowAt(discs: seq<nat>, columns: seq<seq<Value>>, i: nat): (row: Row)
    requires i < |discs| && Enough(discs, columns)
  {
    var t := discs[i];
    if t >= |columns| then None
    else
      CountBefore(discs, i);
      assert CountOf(discs, t) <= |columns[t]|;
      Some((t, columns[t][CountOf(discs[..i], t)]))
  }

  /** The out-of-bounds error is unreachable, and row `i` is as `RowAt` says. */
  lemma {:induction false} ScatterRows(discs: seq<nat>, columns: seq<seq<Value>>)
    requires Enough(discs, columns)
    ensures Scatter(discs, columns).Ok?
    ensures forall i :: 0 <= i < |discs| ==> Scatter(discs, columns).value[i] == RowAt(discs, columns, i)
  {
    if discs != [] {
      var last := |discs| - 1;
      var front := discs[..last];
      EnoughFront(discs, columns);
      ScatterRows(front, columns);
      CountBefore(discs, last);
      forall i | 0 <= i < last
        ensures RowAt(front, columns, i) == RowAt(discs, columns, i)
      {
        assert front[..i] == discs[..i];
      }
    }
  }

  lemma EnoughFront(discs: seq<nat>, columns: seq<seq<Value>>)
    requires discs != [] && Enough(discs, columns)
    ensures Enough(discs[..|discs| - 1], columns)
  {
    forall t | 0 <= t < |columns|
      ensures CountOf(discs[..|discs| - 1], t) <= |columns[t]|
    {
      assert CountOf(discs, t) <= |columns[t]|;
    }
  }

  // --------------------------------------------------------------------------
  // The two directions of the bijection
  // --------------------------------------------------------------------------

  /** Grouping rows and scattering them again gives the rows back. */
  lemma GatherThenScatter(discs: seq<nat>, rows: seq<Row>, types: nat)
    requires Marks(discs, rows, types)
    ensures Scatter(discs, Gather(rows, types)) == Ok(rows)
  {
    var columns := Gather(rows, types);
    forall t | 0 <= t < types
      ensures CountOf(discs, t) <= |columns[t]|
    {
      PickedCount(discs, rows, types, t);
    }
    ScatterRows(discs, columns);
    forall i | 0 <= i < |rows|
      ensures RowAt(discs, columns, i) == rows[i]
    {
      if rows[i].Some? {
        PickedAt(discs, rows, types, i);
      }
    }
    assert Scatter(discs, columns).value == rows;
  }

  lemma {:induction false} PickedAt(discs: seq<nat>, rows: seq<Row>, types: nat, i: nat)
    requires Marks(discs, rows, types) && i < |rows| && rows[i].Some?
    ensures var (t, v) := rows[i].value;
            var k := CountOf(discs[..i], t);
            k < |Picked(rows, t)| && Picked(rows, t)[k] == v
    decreases |rows|
  {
    var last := |rows| - 1;
    var front := discs[..last];
    var (t, v) := rows[i].value;
    if i < last {
      assert discs[..i] == front[..i];
      PickedAt(front, rows[..last], types, i);
    } else {
      PickedCount(front, rows[..last], types, t);
    }
  }

  /** Scattering and grouping again gives the subcolumns back, and the rows
      carry the discriminators. */
  lemma ScatterThenGather(discs: seq<nat>, columns: seq<seq<Value>>)
    requires forall t :: 0 <= t < |columns| ==> CountOf(discs, t) == |columns[t]|
    ensures Scatter(discs, columns).Ok?
    ensures var rows := Scatter(discs, columns).value;
            Marks(discs, rows, |columns|) && Gather(rows, |columns|) == columns
  {
    ScatterRows(discs, columns);
    var rows := Scatter(discs, columns).value;
    forall t | 0 <= t < |columns|
      ensures Picked(rows, t) == columns[t]
    {
      PickedPrefix(discs, columns, t);
    }
    assert Gather(rows, |columns|) == columns;
    forall i | 0 <= i < |discs|
      ensures if rows[i].Some? then discs[i] == rows[i].value.0 < |columns| else |columns| <= discs[i]
    {
      assert rows[i] == RowAt(discs, columns, i);
    }
  }

  lemma {:induction false} PickedPrefix(discs: seq<nat>, columns: seq<seq<Value>>, t: nat)
    requires Enough(discs, columns) && t < |columns|
    ensures Scatter(discs, columns).Ok? && CountOf(discs, t) <= |columns[t]|
    ensures Picked(Scatter(discs, columns).value, t) == columns[t][..CountOf(discs, t)]
  {
    hide Scatter, Enough;
    ScatterRows(discs, columns);
    if discs == [] {
      assert Scatter(discs, columns).value == [];
      EnoughCount(discs, columns, t);
    } else {
      var last := |discs| - 1;
      EnoughFront(discs, columns);
      EnoughCount(discs, columns, t);
      PickedPrefix(discs[..last], columns, t);
      ScatterFront(discs, columns);
      LastPicked(discs, columns, Scatter(discs, columns).value, t);
    }
  }

  lemma EnoughCount(discs: seq<nat>, columns: seq<seq<Value>>, t: nat)
    requires Enough(discs, columns) && t < |columns|
    ensures CountOf(discs, t) <= |columns[t]|
  {
  }

  lemma ScatterFront(discs: seq<nat>, columns: seq<seq<Value>>)
    requires discs != [] && Scatter(discs, columns).Ok?
    ensures var front := discs[..|discs| - 1];
            Scatter(front, columns).Ok? && Scatter(discs, columns).value[..|discs| - 1] == Scatter(front, columns).value
  {
  }

  lemma LastPicked(discs: seq<nat>, columns: seq<seq<Value>>, rows: seq<Row>, t: nat)
    requires Enough(discs, columns) && discs != [] && |rows| == |discs| && t < |columns|
    requires CountOf(discs, t) <= |columns[t]|
    requires rows[|discs| - 1] == RowAt(discs, columns, |discs| - 1)
    requires Picked(rows[..|discs| - 1], t) == columns[t][..CountOf(discs[..|discs| - 1], t)]
    ensures Picked(rows, t) == columns[t][..CountOf(discs, t)]
  {
    hide Enough, Picked, CountOf, RowAt;
    var last := |discs| - 1;
    var n := CountOf(discs[..last], t);
    PickedStep(rows, t);
    CountStep(discs, t);
    RowValueAt(discs, columns, last);
    if discs[last] == t {
      assert columns[t][..n] + [columns[t][n]] == columns[t][..n + 1];
    } else {
      assert columns[t][..n] + [] == columns[t][..n];
    }
  }

  lemma PickedStep(rows: seq<Row>, t: nat)
    requires rows != []
    ensures var last := rows[|rows| - 1];
            Picked(rows, t) == Picked(rows[..|rows| - 1], t) + if last.Some? && last.value.0 == t then [last.value.1] else []
  {
  }

  lemma CountStep(discs: seq<nat>, t: nat)
    requires discs != []
    ensures CountOf(discs, t) == CountOf(discs[..|discs| - 1], t) + if discs[|discs| - 1] == t then 1 else 0
  {
  }

  lemma RowValueAt(discs: seq<nat>, columns: seq<seq<Value>>, i: nat)
    requires Enough(discs, columns) && i < |discs|
    ensures var t := discs[i];
            if t >= |columns| then RowAt(discs, columns, i) == None
            else CountOf(discs[..i], t) < |columns[t]| && RowAt(discs, columns, i) == Some((t, columns[t][CountOf(discs[..i], t)]))
  {
    hide Enough, CountOf;
    CountBefore(discs, i);
    if discs[i] < |columns| {
      EnoughCount(discs, columns, discs[i]);
    }
  }

  // --------------------------------------------------------------------------
  // Discriminator width
  // --------------------------------------------------------------------------

  /** Discriminators written with the width that belongs to the type count. */
  function EncodeDiscs(discs: seq<nat>, width: nat): (s: seq<byte>)
    ensures |s| == |discs| * width
  {
    if discs == [] then []
    else
      assert |discs| * width == width + |discs[1..]| * width;
      LeBytes(discs[0], width) + EncodeDiscs(discs[1..], width)
  }

  /** The chosen width holds every index and the NULL marker. */
  lemma {:induction false} WidthLossless(discs: seq<nat>, types: nat)
    requires types < U64_LIMIT && AllDiscs(discs, types, types)
    ensures Chunks(EncodeDiscs(discs, DiscWidth(types)), DiscWidth(types)) == discs
  {
    var width := DiscWidth(types);
    if discs != [] {
      var s := EncodeDiscs(discs, width);
      assert |discs| * width == width + |discs[1..]| * width;
      assert s[..width] == LeBytes(discs[0], width) && s[width..] == EncodeDiscs(discs[1..], width);
      LeRoundTrip(discs[0], width);
      WidthLossless(discs[1..], types);
      assert [discs[0]] + discs[1..] == discs;
    }
  }

  /** No narrower width would do: the NULL marker itself overflows it. */
  lemma WidthMinimal(types: nat)
    requires DiscWidth(types) > 1
    ensures LeValue(LeBytes(types, DiscWidth(types) / 2)) != types
  {
    LeValueBound(LeBytes(types, DiscWidth(types) / 2));
  }
}
