/** The byte layout of the store's records as `struct.unpack` reads them
    in `dictionary.py`: 'IIHHQQ' (32 bytes, with 4 bytes of alignment
    padding before the first 8-byte field) for a `db_entry` and 'QIHH'
    (16 bytes, the last two being the struct's tail padding) for a
    `time_entry`, in the little-endian, natively aligned form of the x86
    hosts the C writer runs on. */
module StoreCodec {
  import opened Bytes
  import opened StoreTypes

  function Pow256(n: nat): (p: nat)
    ensures p > 0
  {
    if n == 0 then 1 else 256 * Pow256(n - 1)
  }

  /** The unsigned value of n little-endian bytes. */
  function LittleEndian(bs: seq<byte>): (x: nat)
    ensures x < Pow256(|bs|)
  {
    if bs == [] then 0 else bs[0] as nat + 256 * LittleEndian(bs[1..])
  }

  /** The n little-endian bytes of x; decoding them gives x back. */
  function ToLittleEndian(x: nat, n: nat): (bs: seq<byte>)
    requires x < Pow256(n)
    ensures |bs| == n && LittleEndian(bs) == x
  {
    if n == 0 then []
    else
      var rest := ToLittleEndian(x / 256, n - 1);
      assert ([(x % 256) as byte] + rest)[1..] == rest;
      [(x % 256) as byte] + rest
  }

  /** Encoding the value of some bytes gives those bytes back. */
  lemma {:induction false} LittleEndianBytes(bs: seq<byte>)
    ensures ToLittleEndian(LittleEndian(bs), |bs|) == bs
  {
    if bs != [] {
      LittleEndianBytes(bs[1..]);
      var x := LittleEndian(bs);
      assert x % 256 == bs[0] as nat && x / 256 == LittleEndian(bs[1..]);
    }
  }

  /** `struct.unpack('IIHHQQ', record)`. */
  function DecodeDbEntry(bs: seq<byte>): (e: DbEntry)
    requires |bs| == DB_ENTRY_SIZE
    ensures e.InRange()
  {
    DbEntry(LittleEndian(bs[0..4]), LittleEndian(bs[4..8]), LittleEndian(bs[8..10]), LittleEndian(bs[10..12]),
            LittleEndian(bs[16..24]), LittleEndian(bs[24..32]))
  }

  /** The 32 bytes `fwrite` puts out for a `db_entry`, with zero padding. */
  function EncodeDbEntry(e: DbEntry): (bs: seq<byte>)
    requires e.InRange()
    ensures |bs| == DB_ENTRY_SIZE
  {
    ToLittleEndian(e.wordOffset, 4) + ToLittleEndian(e.timeOffset, 4) + ToLittleEndian(e.wordLength, 2)
    + ToLittleEndian(e.timeLength, 2) + [0, 0, 0, 0]
    + ToLittleEndian(e.totalMatchCount, 8) + ToLittleEndian(e.totalVolumeCount, 8)
  }

  /** Every record decodes back to what was written. */
  lemma DbEntryRoundTrip(e: DbEntry)
    requires e.InRange()
    ensures DecodeDbEntry(EncodeDbEntry(e)) == e
  {
    var bs := EncodeDbEntry(e);
    assert bs[0..4] == ToLittleEndian(e.wordOffset, 4);
    assert bs[4..8] == ToLittleEndian(e.timeOffset, 4);
    assert bs[8..10] == ToLittleEndian(e.wordLength, 2);
    assert bs[10..12] == ToLittleEndian(e.timeLength, 2);
    assert bs[16..24] == ToLittleEndian(e.totalMatchCount, 8);
    assert bs[24..32] == ToLittleEndian(e.totalVolumeCount, 8);
  }

  /** Decoding reads every byte except the padding: re-encoding a decoded
      record gives it back with its padding zeroed. */
  lemma DbEntryBytes(bs: seq<byte>)
    requires |bs| == DB_ENTRY_SIZE
    ensures EncodeDbEntry(DecodeDbEntry(bs)) == bs[..12] + [0, 0, 0, 0] + bs[16..]
  {
    LittleEndianBytes(bs[0..4]);
    LittleEndianBytes(bs[4..8]);
    LittleEndianBytes(bs[8..10]);
    LittleEndianBytes(bs[10..12]);
    LittleEndianBytes(bs[16..24]);
    LittleEndianBytes(bs[24..32]);
    assert bs[..12] == bs[0..4] + bs[4..8] + bs[8..10] + bs[10..12];
    assert bs[16..] == bs[16..24] + bs[24..32];
  }

  /** `struct.unpack('QIHH', row)`: match count, volume count, year; the
      last field is padding. */
  function DecodeTimeEntry(bs: seq<byte>): (t: TimeEntry)
    requires |bs| == TIME_ENTRY_SIZE
    ensures t.InRange()
  {
    TimeEntry(LittleEndian(bs[0..8]), LittleEndian(bs[8..12]), LittleEndian(bs[12..14]))
  }

  /** The 16 bytes `fwrite` puts out for a `time_entry`, with zero padding. */
  function EncodeTimeEntry(t: TimeEntry): (bs: seq<byte>)
    requires t.InRange()
    ensures |bs| == TIME_ENTRY_SIZE
  {
    ToLittleEndian(t.matchCount, 8) + ToLittleEndian(t.volumeCount, 4) + ToLittleEndian(t.year, 2) + [0, 0]
  }

  lemma TimeEntryRoundTrip(t: TimeEntry)
    requires t.InRange()
    ensures DecodeTimeEntry(EncodeTimeEntry(t)) == t
  {
    var bs := EncodeTimeEntry(t);
    assert bs[0..8] == ToLittleEndian(t.matchCount, 8);
    assert bs[8..12] == ToLittleEndian(t.volumeCount, 4);
    assert bs[12..14] == ToLittleEndian(t.year, 2);
  }

  lemma TimeEntryBytes(bs: seq<byte>)
    requires |bs| == TIME_ENTRY_SIZE
    ensures EncodeTimeEntry(DecodeTimeEntry(bs)) == bs[..14] + [0, 0]
  {
    LittleEndianBytes(bs[0..8]);
    LittleEndianBytes(bs[8..12]);
    LittleEndianBytes(bs[12..14]);
    assert bs[..14] == bs[0..8] + bs[8..12] + bs[12..14];
  }
}
