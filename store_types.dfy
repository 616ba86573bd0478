/** The records of the word-indexed time-series store (`dictionary_types.h`)
    and the offset discipline shared by the writer and both sorters: each
    index record points just past the bytes and rows written for the records
    before it, with the 32-bit wrap of the C offset fields. */
module StoreTypes {

  const MIN_YEAR: nat := 1500
  /** `MAX_YEARS` as the reader, the sorters and the detectors see it. */
  const READER_MAX_YEARS: nat := 509
  /** `MAX_YEARS` as the writer sees it: the capacity of its time table. */
  const WRITER_MAX_YEARS: nat := 520

  const U16: nat := 0x1_0000
  const U32: nat := 0x1_0000_0000
  const U64: nat := 0x1_0000_0000_0000_0000

  /** sizeof(struct db_entry) and sizeof(struct time_entry), padding included. */
  const DB_ENTRY_SIZE: nat := 32
  const TIME_ENTRY_SIZE: nat := 16

  /** struct db_entry: one word's index record. */
  datatype DbEntry = DbEntry(
    wordOffset: nat,        // uint32_t
    timeOffset: nat,        // uint32_t
    wordLength: nat,        // uint16_t
    timeLength: nat,        // uint16_t
    totalMatchCount: nat,   // uint64_t
    totalVolumeCount: nat)  // uint64_t
  {
    predicate InRange()
    {
      wordOffset < U32 && timeOffset < U32 && wordLength < U16 && timeLength < U16
      && totalMatchCount < U64 && totalVolumeCount < U64
    }
  }

  /** struct time_entry: one (year, counts) row of a word's time table. */
  datatype TimeEntry = TimeEntry(
    matchCount: nat,   // uint64_t
    volumeCount: nat,  // uint32_t
    year: nat)         // uint16_t
  {
    predicate InRange()
    {
      matchCount < U64 && volumeCount < U32 && year < U16
    }
  }

  /** struct total_counts_entry: corpus-wide counts of one year. */
  datatype TotalCounts = TotalCounts(matchCount: nat, pageCount: nat, volumeCount: nat)

  function Sum(s: seq<nat>): nat
  {
    if |s| == 0 then 0 else Sum(s[..|s| - 1]) + s[|s| - 1]
  }

  lemma SumAppend(s: seq<nat>, x: nat)
    ensures Sum(s + [x]) == Sum(s) + x
  {
    assert (s + [x])[..|s|] == s;
  }

  function WordLengths(index: seq<DbEntry>): (r: seq<nat>)
    ensures |r| == |index|
    ensures forall k :: 0 <= k < |index| ==> r[k] == index[k].wordLength
  {
    seq(|index|, k requires 0 <= k < |index| => index[k].wordLength)
  }

  function TimeLengths(index: seq<DbEntry>): (r: seq<nat>)
    ensures |r| == |index|
    ensures forall k :: 0 <= k < |index| ==> r[k] == index[k].timeLength
  {
    seq(|index|, k requires 0 <= k < |index| => index[k].timeLength)
  }

  /** Record k's word offset is the number of word bytes written before it, and
      its time offset 16 times the number of time rows written before it, both
      as 32-bit unsigned values. */
  ghost predicate OffsetsFollow(index: seq<DbEntry>, wlens: seq<nat>, tlens: seq<nat>)
  {
    |wlens| == |index| && |tlens| == |index|
    && forall k {:trigger index[k]} :: 0 <= k < |index| ==>
         index[k].wordOffset == Sum(wlens[..k]) % U32
         && index[k].timeOffset == (TIME_ENTRY_SIZE * Sum(tlens[..k])) % U32
  }

  /** Appending a record placed just past everything written keeps the layout. */
  lemma OffsetsFollowAppend(index: seq<DbEntry>, wlens: seq<nat>, tlens: seq<nat>,
                            e: DbEntry, wl: nat, tl: nat)
    requires OffsetsFollow(index, wlens, tlens)
    requires e.wordOffset == Sum(wlens) % U32
    requires e.timeOffset == (TIME_ENTRY_SIZE * Sum(tlens)) % U32
    ensures OffsetsFollow(index + [e], wlens + [wl], tlens + [tl])
  {
    var index', wlens', tlens' := index + [e], wlens + [wl], tlens + [tl];
    forall k | 0 <= k < |index'|
      ensures index'[k].wordOffset == Sum(wlens'[..k]) % U32
      ensures index'[k].timeOffset == (TIME_ENTRY_SIZE * Sum(tlens'[..k])) % U32
    {
      if k < |index| {
        assert wlens'[..k] == wlens[..k] && tlens'[..k] == tlens[..k];
      } else {
        assert wlens'[..k] == wlens && tlens'[..k] == tlens;
      }
    }
  }

  function Flatten<T>(s: seq<seq<T>>): seq<T>
  {
    if |s| == 0 then [] else Flatten(s[..|s| - 1]) + s[|s| - 1]
  }

  lemma FlattenAppend<T>(s: seq<seq<T>>, x: seq<T>)
    ensures Flatten(s + [x]) == Flatten(s) + x
  {
    assert (s + [x])[..|s|] == s;
  }

  function Lengths<T>(s: seq<seq<T>>): (r: seq<nat>)
    ensures |r| == |s|
    ensures forall k :: 0 <= k < |s| ==> r[k] == |s[k]|
  {
    seq(|s|, k requires 0 <= k < |s| => |s[k]|)
  }

  lemma {:induction false} FlattenLength<T>(s: seq<seq<T>>)
    ensures |Flatten(s)| == Sum(Lengths(s))
  {
    if |s| > 0 {
      var init := s[..|s| - 1];
      FlattenLength(init);
      assert Lengths(s)[..|s| - 1] == Lengths(init);
    }
  }

  /** Adding to a 32-bit value already wrapped is adding with wrap. */
  lemma ModAdd32(a: nat, b: nat)
    ensures (a % U32 + b) % U32 == (a + b) % U32
  {
  }

  /** A `uint32_t` word offset moved past a word of `wordLength` bytes. */
  function AdvanceWord(woff: nat, wordLength: nat): nat
  {
    (woff + wordLength) % U32
  }

  /** A `uint32_t` time offset moved past `rows` rows of 16 bytes. */
  function AdvanceTime(toff: nat, rows: nat): nat
  {
    (toff + rows * TIME_ENTRY_SIZE) % U32
  }

  /** The two running 32-bit offsets of a writer of index records equal the
      wrapped positions of the word stream (`words` bytes) and the time
      stream (`rows` rows of 16 bytes). */
  predicate Running(woff: nat, toff: nat, words: nat, rows: nat)
  {
    woff == words % U32 && toff == (TIME_ENTRY_SIZE * rows) % U32
  }

  /** Advancing the running offsets by a word of wl bytes and a table of tl
      rows, with 32-bit wrap, keeps them equal to the stream positions. */
  lemma RunningStep(woff: nat, toff: nat, words: nat, rows: nat, wl: nat, tl: nat)
    requires Running(woff, toff, words, rows)
    ensures Running(AdvanceWord(woff, wl), AdvanceTime(toff, tl), words + wl, rows + tl)
  {
    ModAdd32(words, wl);
    ModAdd32(TIME_ENTRY_SIZE * rows, tl * TIME_ENTRY_SIZE);
    assert TIME_ENTRY_SIZE * rows + tl * TIME_ENTRY_SIZE == TIME_ENTRY_SIZE * (rows + tl);
  }
}
