/**
 Shreds as the deshredder sees them after parsing, and the two library calls it makes
 (Reed-Solomon recovery and entry decoding) as function values.
 */
module Shreds {
  import opened Options

  type Byte = b: int | 0 <= b < 256

  type Payload = seq<Byte>

  type Pos = n: nat | n > 0 witness 1

  datatype Shred = Shred(
    slot: nat,
    index: nat,
    fecSetIndex: nat,
    isData: bool,
    dataComplete: bool,
    lastInSlot: bool,
    payload: Payload)

  const SIZE_OF_COMMON_SHRED_HEADER: nat := 83

  /** The data-shred count of a coding header: a little-endian u16; zero or a short payload is no count. */
  function NumDataShreds(payload: Payload): (r: Option<Pos>)
    ensures r.Some? <==> |payload| >= 85 && !(payload[83] == 0 && payload[84] == 0)
    ensures r.Some? ==> r.value % 256 == payload[83] && r.value / 256 == payload[84]
  {
    if |payload| < SIZE_OF_COMMON_SHRED_HEADER + 2 then None else
    var low: int := payload[SIZE_OF_COMMON_SHRED_HEADER];
    var high: int := payload[SIZE_OF_COMMON_SHRED_HEADER + 1];
    var n := low + 256 * high;
    if n > 0 then Some(n) else None
  }

  type Entry = seq<Byte>

  /** What Reed-Solomon recovery gives back: an error, or shreds some of which may not parse. */
  datatype Rebuilt = Unrecoverable | Rebuilt(shreds: seq<Option<Shred>>)

  /** The two library calls: erasure recovery, and deshred-then-deserialize. */
  datatype Codec = Codec(recover: seq<Shred> -> Rebuilt, decode: seq<Payload> -> Option<seq<Entry>>)
}
