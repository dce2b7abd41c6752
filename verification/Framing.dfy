/** Exact framing of columns, in both directions, and what follows from it. */
module Framing {
  import opened Bytes
  import opened ColumnTypes
  import opened SkipSpec
  import opened WireFormat
  import FramingComplete
  import FramingSound

  /** `c` is a column of type `t` that fills the bytes from `pos` to `end`. */
  ghost predicate Fills(buf: seq<byte>, pos: nat, t: ColumnType, rows: nat, c: Column, end: nat)
  {
    FitsData(t, rows, c) && Occurs(buf, pos, Wire(c)) && end == pos + |Wire(c)|
  }

  /** The skipper stops at `end` exactly when the bytes up to `end` are a
      well-formed column of the type and row count it was given. */
  lemma ExactFraming(buf: seq<byte>, pos: nat, t: ColumnType, rows: nat, end: nat)
    requires pos <= |buf|
    ensures SkipData(buf, pos, t, rows) == Ok(end) <==> exists c :: Fills(buf, pos, t, rows, c, end)
  {
    hide SkipData, FitsData, Wire, Occurs;
    if SkipData(buf, pos, t, rows) == Ok(end) {
      var c := FramingSound.DataSound(buf, pos, t, rows);
      assert Fills(buf, pos, t, rows, c, end);
    }
    if c :| Fills(buf, pos, t, rows, c, end) {
      FramingComplete.DataComplete(buf, pos, t, rows, c);
    }
  }

  /** A successful skip depends only on the bytes it passes over: the same
      bytes elsewhere, followed by anything, are skipped by as much. */
  lemma SkipIsLocal(buf: seq<byte>, pos: nat, other: seq<byte>, at: nat, t: ColumnType, rows: nat)
    requires pos <= |buf| && SkipData(buf, pos, t, rows).Ok?
    requires Occurs(other, at, buf[pos..SkipData(buf, pos, t, rows).value])
    ensures SkipData(other, at, t, rows) == Ok(at + SkipData(buf, pos, t, rows).value - pos)
  {
    hide SkipData, FitsData, Wire;
    var c := FramingSound.DataSound(buf, pos, t, rows);
    FramingComplete.DataComplete(other, at, t, rows, c);
  }

  /** No column is a proper prefix of another one of the same type and row
      count, so a reader never has to guess where a column ends. */
  lemma PrefixFree(t: ColumnType, rows: nat, c: Column, d: Column)
    requires FitsData(t, rows, c) && FitsData(t, rows, d) && Wire(c) <= Wire(d)
    ensures Wire(c) == Wire(d)
  {
    hide SkipData, FitsData, Wire;
    FramingComplete.DataComplete(Wire(d), 0, t, rows, c);
    FramingComplete.DataComplete(Wire(d), 0, t, rows, d);
  }

  /** A truncated column is never accepted. */
  lemma TruncatedIsRejected(t: ColumnType, rows: nat, c: Column, n: nat)
    requires FitsData(t, rows, c) && n < |Wire(c)|
    ensures SkipData(Wire(c)[..n], 0, t, rows).Err?
  {
    hide SkipData, FitsData, Wire;
    var short := Wire(c)[..n];
    if SkipData(short, 0, t, rows).Ok? {
      var d := FramingSound.DataSound(short, 0, t, rows);
      assert Wire(d) <= Wire(c);
      PrefixFree(t, rows, d, c);
    }
  }
}
