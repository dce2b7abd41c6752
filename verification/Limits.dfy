/** The caps of `src/limits.rs`. Every check fails both when the value passes
    the cap and when the original's machine arithmetic would overflow; all caps
    lie far below 2^64, so comparing unbounded integers decides both. */
module Limits {
  import opened Bytes

  const MAX_CHUNK_LEN: nat := 64 * 1024 * 1024
  const MAX_FRAME_SIZE: nat := 64 * 1024 * 1024
  const MAX_JSON_DYNAMIC_ITEMS: nat := 65536
  const MAX_BLOCK_COLUMNS: nat := 65536
  const MAX_BLOCK_ROWS: nat := 10000000
  const MAX_STRING_BYTES: nat := 0x00FF_FFFF
  const MAX_COLUMN_BYTES: nat := 64 * 1024 * 1024
  const MAX_BLOCK_BYTES: nat := 1024 * 1024 * 1024

  function Capped(value: nat, cap: nat): (r: Result<nat>)
    ensures r == Ok(value) <==> value <= cap
    ensures r.Err? <==> value > cap
  {
    if value > cap then Err(TooLarge) else Ok(value)
  }

  /** `checked_string_len`. */
  function StringLen(value: nat): (r: Result<nat>)
  {
    Capped(value, MAX_STRING_BYTES)
  }

  /** `checked_column_len`. */
  function ColumnLen(rows: nat, width: nat): (r: Result<nat>)
  {
    Capped(rows * width, MAX_COLUMN_BYTES)
  }

  /** `checked_count` with the cap for JSON paths, Dynamic types and dictionary keys. */
  function ItemCount(value: nat): (r: Result<nat>)
  {
    Capped(value, MAX_JSON_DYNAMIC_ITEMS)
  }

  /** `checked_monotonic_offset`. */
  function NextOffset(prev: nat, value: nat): (r: Result<nat>)
    ensures r == Ok(value) <==> prev <= value <= MAX_BLOCK_ROWS
    ensures r.Ok? ==> r.value == value
  {
    var v :- Capped(value, MAX_BLOCK_ROWS);
    if v < prev then Err(OffsetDecreased) else Ok(v)
  }
}
