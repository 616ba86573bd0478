/** The store writer (`dictionary_writer.c`).  Records arrive grouped by word;
    consecutive records of one word are coalesced into a time table, and when
    the word changes the buffered word is flushed to the three streams unless
    its total match count is below `MIN_MATCH_COUNT`.  The three output files
    are the sequences `mainOut`, `wordOut` and `timeOut`. */
module DictionaryWriter {
  import opened Bytes
  import opened StoreTypes

  const MIN_MATCH_COUNT: nat := 0x4000  // 1 << 14
  /** Capacity of `last_word`, without its terminator. */
  const BUFFER_SIZE: nat := 1008

  /** The row stored for a record: `year` goes through the conversion of an
      `int` to a `uint16_t`, which is reduction modulo 2^16. */
  function Row(year: int, matchCount: nat, volumeCount: nat): (r: TimeEntry)
    ensures r.year < U16 && r.year % U16 == year % U16
    ensures r.matchCount == matchCount && r.volumeCount == volumeCount
  {
    TimeEntry(matchCount, volumeCount, (year % U16) as nat)
  }

  /** The streams hold exactly the records written so far: the last index
      record describes the bytes and rows at the end of the word and time
      streams, its offsets point just past the data before them, only words
      that passed the threshold appear, and the same holds of what comes
      before. */
  ghost predicate Written(mainOut: seq<DbEntry>, wordOut: seq<byte>, timeOut: seq<TimeEntry>)
  {
    if |mainOut| == 0 then wordOut == [] && timeOut == []
    else
      var e := mainOut[|mainOut| - 1];
      && 0 < e.wordLength <= |wordOut| && e.timeLength <= |timeOut|
      && IsCString(wordOut[|wordOut| - e.wordLength..])
      && e.totalMatchCount >= MIN_MATCH_COUNT
      && e.wordOffset == (|wordOut| - e.wordLength) % U32
      && e.timeOffset == (TIME_ENTRY_SIZE * (|timeOut| - e.timeLength)) % U32
      && Written(mainOut[..|mainOut| - 1], wordOut[..|wordOut| - e.wordLength],
                 timeOut[..|timeOut| - e.timeLength])
  }

  /** Writing a record placed just past the streams, followed by its own
      word and table, keeps the streams described by their records. */
  lemma WrittenAppend(mainOut: seq<DbEntry>, wordOut: seq<byte>, timeOut: seq<TimeEntry>,
                      e: DbEntry, w: seq<byte>, rows: seq<TimeEntry>)
    requires Written(mainOut, wordOut, timeOut)
    requires e.wordOffset == |wordOut| % U32
    requires e.timeOffset == (TIME_ENTRY_SIZE * |timeOut|) % U32
    requires e.wordLength == |w| && 0 < |w| && IsCString(w)
    requires e.timeLength == |rows| && e.totalMatchCount >= MIN_MATCH_COUNT
    ensures Written(mainOut + [e], wordOut + w, timeOut + rows)
  {
    var m', w', t' := mainOut + [e], wordOut + w, timeOut + rows;
    assert m'[..|m'| - 1] == mainOut;
    assert w'[..|w'| - e.wordLength] == wordOut;
    assert w'[|w'| - e.wordLength..] == w;
    assert t'[..|t'| - e.timeLength] == timeOut;
    assert Written(m', w', t');
  }

  /** What the streams hold, seen record by record: the word stream is as long
      as all the word lengths together and the time stream as all the table
      lengths, and every record's offsets are the wrapped prefix sums of the
      lengths before it. */
  lemma {:induction false} WrittenOffsets(mainOut: seq<DbEntry>, wordOut: seq<byte>, timeOut: seq<TimeEntry>)
    requires Written(mainOut, wordOut, timeOut)
    ensures |wordOut| == Sum(WordLengths(mainOut))
    ensures |timeOut| == Sum(TimeLengths(mainOut))
    ensures OffsetsFollow(mainOut, WordLengths(mainOut), TimeLengths(mainOut))
  {
    if |mainOut| > 0 {
      var n := |mainOut| - 1;
      var e := mainOut[n];
      var wo, to := wordOut[..|wordOut| - e.wordLength], timeOut[..|timeOut| - e.timeLength];
      WrittenOffsets(mainOut[..n], wo, to);
      assert WordLengths(mainOut) == WordLengths(mainOut[..n]) + [e.wordLength];
      assert TimeLengths(mainOut) == TimeLengths(mainOut[..n]) + [e.timeLength];
      SumAppend(WordLengths(mainOut[..n]), e.wordLength);
      SumAppend(TimeLengths(mainOut[..n]), e.timeLength);
      assert mainOut == mainOut[..n] + [e];
      OffsetsFollowAppend(mainOut[..n], WordLengths(mainOut[..n]), TimeLengths(mainOut[..n]),
                          e, e.wordLength, e.timeLength);
    }
  }

  /** The writer's observable state: the buffered word, its entry and rows
      (`table[..table_size]`), the word count and the three streams. */
  datatype WriterState = WriterState(
    lastWord: seq<byte>,
    entry: DbEntry,
    rows: seq<TimeEntry>,
    numWords: nat,
    mainOut: seq<DbEntry>,
    wordOut: seq<byte>,
    timeOut: seq<TimeEntry>)
  {
    /** The buffer is well formed and the streams hold exactly the records
        written so far. */
    ghost predicate Valid()
    {
      && |rows| <= WRITER_MAX_YEARS
      && IsCString(lastWord) && |lastWord| <= BUFFER_SIZE
      && (lastWord == [] ==> entry.totalMatchCount == 0 && rows == [])
      && entry.InRange()
      && Written(mainOut, wordOut, timeOut)
    }

    /** The bookkeeping accounts for everything written: the buffered entry's
        offsets point just past it and the word count is the number of index
        records. */
    ghost predicate Synced()
    {
      && numWords == |mainOut|
      && entry.wordOffset == |wordOut| % U32
      && entry.timeOffset == (TIME_ENTRY_SIZE * |timeOut|) % U32
    }
  }

  /** The state `init_dictionary` leaves: all zero. */
  function InitState(): (s: WriterState)
    ensures s.Valid() && s.Synced()
    ensures s.mainOut == [] && s.wordOut == [] && s.timeOut == []
  {
    WriterState([], DbEntry(0, 0, 0, 0, 0, 0), [], 0, [], [], [])
  }

  /** What `flush_dictionary` returns: 0 for a pruned word, else `strlen`. */
  function FlushedLength(s: WriterState): nat
  {
    if s.entry.totalMatchCount < MIN_MATCH_COUNT then 0 else StrLen(s.lastWord)
  }

  /** The state `flush_dictionary` leaves. */
  function FlushState(s: WriterState): WriterState
  {
    if s.entry.totalMatchCount < MIN_MATCH_COUNT then s
    else
      var e := s.entry.(wordLength := StrLen(s.lastWord), timeLength := |s.rows|);
      s.(entry := e, mainOut := s.mainOut + [e], wordOut := s.wordOut + s.lastWord,
         timeOut := s.timeOut + s.rows)
  }

  /** How many elements each of the three `fwrite` calls of a flush can put
      out: the index record, the word's bytes and the rows.  `fwrite` writes
      fewer elements than asked for only on a write error, which sets the
      stream's error indicator, so a short count makes the flush exit. */
  datatype WriteCaps = WriteCaps(mainCap: nat, wordCap: nat, timeCap: nat)

  /** What a write of `xs` that can put out `cap` elements puts out. */
  function Take<T>(xs: seq<T>, cap: nat): (r: seq<T>)
    ensures |r| == if cap < |xs| then cap else |xs|
    ensures r <= xs
  {
    if cap < |xs| then xs[..cap] else xs
  }

  /** How `flush_dictionary` ends: whether it calls `exit(EXIT_FAILURE)`, and
      the state by then. */
  datatype FlushEnd = FlushEnd(exited: bool, state: WriterState)

  /** The end of `flush_dictionary` when its writes can put out `caps`: the
      record, the word and the rows are written in turn, and the first short
      write exits with what has been put out so far. */
  function FlushOutcome(s: WriterState, caps: WriteCaps): FlushEnd
  {
    if s.entry.totalMatchCount < MIN_MATCH_COUNT then FlushEnd(false, s)
    else
      var wordLen := StrLen(s.lastWord);
      var e := s.entry.(wordLength := wordLen, timeLength := |s.rows|);
      var s1 := s.(entry := e, mainOut := s.mainOut + Take([e], caps.mainCap));
      if caps.mainCap < 1 then FlushEnd(true, s1)
      else
        var s2 := s1.(wordOut := s.wordOut + Take(s.lastWord[..wordLen], caps.wordCap));
        if caps.wordCap < wordLen then FlushEnd(true, s2)
        else
          var s3 := s2.(timeOut := s.timeOut + Take(s.rows, caps.timeCap));
          FlushEnd(caps.timeCap < |s.rows|, s3)
  }

  /** A flush exits exactly when the word is written out and one of its three
      writes cannot take everything; otherwise it ends in `FlushState`.  An
      exit leaves the buffer as it was and the streams cut short: each is a
      prefix of what the complete flush would have written, and together they
      hold less. */
  lemma FlushOutcomeMeaning(s: WriterState, caps: WriteCaps)
    requires s.Valid()
    ensures var o := FlushOutcome(s, caps);
      && (o.exited <==> s.entry.totalMatchCount >= MIN_MATCH_COUNT &&
                        (caps.mainCap < 1 || caps.wordCap < |s.lastWord| || caps.timeCap < |s.rows|))
      && (!o.exited ==> o.state == FlushState(s))
      && (o.exited ==>
            var f := FlushState(s);
            && o.state.lastWord == s.lastWord && o.state.rows == s.rows
            && o.state.numWords == s.numWords
            && s.mainOut <= o.state.mainOut <= f.mainOut
            && s.wordOut <= o.state.wordOut <= f.wordOut
            && s.timeOut <= o.state.timeOut <= f.timeOut
            && |o.state.mainOut| + |o.state.wordOut| + |o.state.timeOut|
                 < |f.mainOut| + |f.wordOut| + |f.timeOut|)
  {
    StrLenOfCString(s.lastWord);
    assert s.lastWord[..StrLen(s.lastWord)] == s.lastWord;
  }

  /** The state `update_dictionary` leaves before it stores the incoming row:
      a new word flushes the buffered one, advances the offsets and the word
      count when that wrote a record, and restarts the totals and the table;
      the same word adds the counts to the totals. */
  function BeginRecord(s: WriterState, word: seq<byte>, matchCount: nat, volumeCount: nat): WriterState
  {
    if s.lastWord != word then
      var f := FlushState(s);
      var wordLen := FlushedLength(s);
      var e := if wordLen > 0 then
                 f.entry.(wordOffset := (f.entry.wordOffset + wordLen) % U32,
                          timeOffset := (f.entry.timeOffset + |s.rows| * TIME_ENTRY_SIZE) % U32)
               else f.entry;
      f.(entry := e.(totalMatchCount := matchCount, totalVolumeCount := volumeCount),
         numWords := if wordLen > 0 then f.numWords + 1 else f.numWords,
         lastWord := word, rows := [])
    else
      s.(entry := s.entry.(totalMatchCount := (s.entry.totalMatchCount + matchCount) % U64,
                           totalVolumeCount := (s.entry.totalVolumeCount + volumeCount) % U64))
  }

  /** The state `update_dictionary` leaves: one row appended to the table. */
  function UpdateState(s: WriterState, word: seq<byte>, year: int,
                       matchCount: nat, volumeCount: nat): WriterState
  {
    var b := BeginRecord(s, word, matchCount, volumeCount);
    b.(rows := b.rows + [Row(year, matchCount, volumeCount)])
  }

  /** Whether `update_dictionary` exits: only a word change flushes, and the
      flush exits on a failed write. */
  function UpdateExits(s: WriterState, word: seq<byte>, caps: WriteCaps): bool
  {
    s.lastWord != word && FlushOutcome(s, caps).exited
  }

  /** What `update_dictionary` demands of its caller: a non-empty C string that
      fits the buffer, counts of the parameter types, and room in the table
      for one more row of the same word (the source does not check this). */
  ghost predicate UpdateAllowed(s: WriterState, word: seq<byte>, matchCount: nat, volumeCount: nat)
  {
    && 0 < |word| <= BUFFER_SIZE && IsCString(word)
    && matchCount < U64 && volumeCount < U32
    && (word == s.lastWord ==> |s.rows| < WRITER_MAX_YEARS)
  }

  /** A flush writes exactly when the buffered total reaches the threshold,
      and then returns the (positive) word length; a pruned word leaves the
      state as it was and 0 is returned. */
  lemma FlushWritesIffFrequent(s: WriterState)
    requires s.Valid()
    ensures FlushedLength(s) > 0 <==> s.entry.totalMatchCount >= MIN_MATCH_COUNT
    ensures s.entry.totalMatchCount < MIN_MATCH_COUNT ==> FlushState(s) == s
    ensures s.entry.totalMatchCount >= MIN_MATCH_COUNT ==> FlushedLength(s) == |s.lastWord|
  {
    StrLenOfCString(s.lastWord);
  }

  /** A written record carries the word's length and the table's size, and is
      followed in the word and time streams by exactly the word and the rows. */
  lemma FlushWritesRecord(s: WriterState)
    requires s.Valid()
    requires s.entry.totalMatchCount >= MIN_MATCH_COUNT
    ensures var f := FlushState(s);
      && f.mainOut == s.mainOut + [s.entry.(wordLength := |s.lastWord|, timeLength := |s.rows|)]
      && f.wordOut == s.wordOut + s.lastWord
      && f.timeOut == s.timeOut + s.rows
      && f.lastWord == s.lastWord && f.rows == s.rows && f.numWords == s.numWords
  {
    StrLenOfCString(s.lastWord);
  }

  /** A flush keeps the streams described by their records. */
  lemma FlushKeepsValid(s: WriterState)
    requires s.Valid() && s.Synced()
    ensures FlushState(s).Valid()
  {
    if s.entry.totalMatchCount >= MIN_MATCH_COUNT {
      StrLenOfCString(s.lastWord);
      var e := s.entry.(wordLength := StrLen(s.lastWord), timeLength := |s.rows|);
      WrittenAppend(s.mainOut, s.wordOut, s.timeOut, e, s.lastWord, s.rows);
    }
  }

  /** The first half of an update keeps the invariant. */
  lemma BeginKeepsInvariant(s: WriterState, word: seq<byte>, matchCount: nat, volumeCount: nat)
    requires s.Valid() && s.Synced()
    requires UpdateAllowed(s, word, matchCount, volumeCount)
    ensures BeginRecord(s, word, matchCount, volumeCount).Valid()
    ensures BeginRecord(s, word, matchCount, volumeCount).Synced()
  {
    if s.lastWord != word {
      FlushKeepsValid(s);
      StrLenOfCString(s.lastWord);
      ModAdd32(|s.wordOut|, |s.lastWord|);
      ModAdd32(TIME_ENTRY_SIZE * |s.timeOut|, |s.rows| * TIME_ENTRY_SIZE);
    }
  }

  /** An update keeps the buffer well formed and the bookkeeping in step with
      the streams: after every update the buffered offsets point just past
      everything written and the word count is the number of records. */
  lemma UpdateKeepsInvariant(s: WriterState, word: seq<byte>, year: int,
                             matchCount: nat, volumeCount: nat)
    requires s.Valid() && s.Synced()
    requires UpdateAllowed(s, word, matchCount, volumeCount)
    ensures UpdateState(s, word, year, matchCount, volumeCount).Valid()
    ensures UpdateState(s, word, year, matchCount, volumeCount).Synced()
  {
    BeginKeepsInvariant(s, word, matchCount, volumeCount);
  }

  /** On a word change the buffered word is flushed; if that wrote a record,
      the word offset grows by the word's length, the time offset by 16 bytes
      per row and the word count by one; a pruned word leaves all three as
      they were.  Either way the totals restart from the incoming counts, the
      new word is buffered and the table restarts with the incoming row. */
  lemma UpdateNewWord(s: WriterState, word: seq<byte>, year: int,
                      matchCount: nat, volumeCount: nat)
    requires s.Valid()
    requires s.lastWord != word
    ensures var u := UpdateState(s, word, year, matchCount, volumeCount);
      && u.lastWord == word && u.rows == [Row(year, matchCount, volumeCount)]
      && u.entry.totalMatchCount == matchCount && u.entry.totalVolumeCount == volumeCount
      && (s.entry.totalMatchCount >= MIN_MATCH_COUNT ==>
            && u.mainOut == s.mainOut + [s.entry.(wordLength := |s.lastWord|, timeLength := |s.rows|)]
            && u.wordOut == s.wordOut + s.lastWord && u.timeOut == s.timeOut + s.rows
            && u.numWords == s.numWords + 1
            && u.entry.wordOffset == (s.entry.wordOffset + |s.lastWord|) % U32
            && u.entry.timeOffset == (s.entry.timeOffset + TIME_ENTRY_SIZE * |s.rows|) % U32)
      && (s.entry.totalMatchCount < MIN_MATCH_COUNT ==>
            && u.mainOut == s.mainOut && u.wordOut == s.wordOut && u.timeOut == s.timeOut
            && u.numWords == s.numWords
            && u.entry.wordOffset == s.entry.wordOffset
            && u.entry.timeOffset == s.entry.timeOffset)
  {
    FlushWritesIffFrequent(s);
  }

  /** Another record of the buffered word adds its counts to the totals
      (modulo 2^64), appends its row and writes nothing. */
  lemma UpdateSameWord(s: WriterState, word: seq<byte>, year: int,
                       matchCount: nat, volumeCount: nat)
    requires s.lastWord == word
    ensures var u := UpdateState(s, word, year, matchCount, volumeCount);
      && u.rows == s.rows + [Row(year, matchCount, volumeCount)]
      && u.entry.totalMatchCount == (s.entry.totalMatchCount + matchCount) % U64
      && u.entry.totalVolumeCount == (s.entry.totalVolumeCount + volumeCount) % U64
      && u.entry.wordOffset == s.entry.wordOffset && u.entry.timeOffset == s.entry.timeOffset
      && u.mainOut == s.mainOut && u.wordOut == s.wordOut && u.timeOut == s.timeOut
      && u.numWords == s.numWords && u.lastWord == s.lastWord
  {
  }

  /** The first update after `init_dictionary` writes nothing: the empty
      buffered word has total 0, below the threshold. */
  lemma FirstUpdateWritesNothing(word: seq<byte>, year: int, matchCount: nat, volumeCount: nat)
    requires 0 < |word|
    ensures var u := UpdateState(InitState(), word, year, matchCount, volumeCount);
      && u.mainOut == [] && u.wordOut == [] && u.timeOut == [] && u.numWords == 0
      && u.entry.wordOffset == 0 && u.entry.timeOffset == 0
  {
  }

  class Writer {
    var lastWord: seq<byte>
    var entry: DbEntry
    const table: array<TimeEntry>
    var tableSize: nat
    var numWords: nat

    var mainOut: seq<DbEntry>
    var wordOut: seq<byte>
    var timeOut: seq<TimeEntry>

    ghost function State(): WriterState
      reads this, table
      requires tableSize <= table.Length
    {
      WriterState(lastWord, entry, table[..tableSize], numWords, mainOut, wordOut, timeOut)
    }

    ghost predicate Valid()
      reads this, table
    {
      table.Length == WRITER_MAX_YEARS && tableSize <= table.Length && State().Valid()
    }

    /** `init_dictionary`: the writer is zeroed. */
    constructor ()
      ensures Valid() && State() == InitState()
      ensures fresh(table)
    {
      lastWord := [];
      entry := DbEntry(0, 0, 0, 0, 0, 0);
      table := new TimeEntry[WRITER_MAX_YEARS](_ => TimeEntry(0, 0, 0));
      tableSize := 0;
      numWords := 0;
      mainOut, wordOut, timeOut := [], [], [];
    }

    /** The table has its `MAX_YEARS` slots and the rows in use fit it. */
    ghost predicate Sized()
      reads this
    {
      table.Length == WRITER_MAX_YEARS && tableSize <= table.Length
    }

    /** `flush_dictionary`, each `fwrite` putting out what `caps` allows. */
    method Flush(caps: WriteCaps) returns (wordLen: nat, exited: bool)
      requires Valid() && State().Synced()
      modifies this
      ensures Sized()
      ensures exited == FlushOutcome(old(State()), caps).exited
      ensures State() == FlushOutcome(old(State()), caps).state
      ensures !exited ==> Valid() && wordLen == FlushedLength(old(State()))
    {
      ghost var s := State();
      FlushKeepsValid(s);
      FlushOutcomeMeaning(s, caps);
      if entry.totalMatchCount < MIN_MATCH_COUNT {
        return 0, false;
      }
      wordLen := StrLen(lastWord);
      entry := entry.(wordLength := wordLen, timeLength := tableSize);
      mainOut := mainOut + Take([entry], caps.mainCap);
      if caps.mainCap < 1 {
        return wordLen, true;
      }
      wordOut := wordOut + Take(lastWord[..wordLen], caps.wordCap);
      if caps.wordCap < wordLen {
        return wordLen, true;
      }
      timeOut := timeOut + Take(table[..tableSize], caps.timeCap);
      exited := caps.timeCap < tableSize;
    }

    /** The word-change branch of `update_dictionary`; it exits when one of
        the flush's writes fails. */
    method StartWord(word: seq<byte>, matchCount: nat, volumeCount: nat, caps: WriteCaps)
      returns (exited: bool)
      requires Valid() && State().Synced()
      requires UpdateAllowed(State(), word, matchCount, volumeCount)
      requires lastWord != word
      modifies this
      ensures Sized()
      ensures exited == FlushOutcome(old(State()), caps).exited
      ensures exited ==> State() == FlushOutcome(old(State()), caps).state
      ensures !exited ==> Valid() && State().Synced()
      ensures !exited ==> State() == BeginRecord(old(State()), word, matchCount, volumeCount)
    {
      BeginKeepsInvariant(State(), word, matchCount, volumeCount);
      var wordLen;
      wordLen, exited := Flush(caps);
      if exited {
        return;
      }
      if wordLen > 0 {
        entry := entry.(wordOffset := (entry.wordOffset + wordLen) % U32,
                        timeOffset := (entry.timeOffset + tableSize * TIME_ENTRY_SIZE) % U32);
        numWords := numWords + 1;
      }
      entry := entry.(totalMatchCount := matchCount, totalVolumeCount := volumeCount);
      lastWord := word;
      tableSize := 0;
    }

    /** The first half of `update_dictionary`, up to storing the row. */
    method BeginUpdate(word: seq<byte>, matchCount: nat, volumeCount: nat, caps: WriteCaps)
      returns (exited: bool)
      requires Valid() && State().Synced()
      requires UpdateAllowed(State(), word, matchCount, volumeCount)
      modifies this
      ensures Sized()
      ensures exited == UpdateExits(old(State()), word, caps)
      ensures exited ==> State() == FlushOutcome(old(State()), caps).state
      ensures !exited ==> Valid() && State().Synced()
      ensures !exited ==> State() == BeginRecord(old(State()), word, matchCount, volumeCount)
      ensures old(lastWord) == word ==> tableSize == old(tableSize)
    {
      StrCmpZeroIffEqual(lastWord, word);
      if StrCmp(lastWord, word) != 0 {
        exited := StartWord(word, matchCount, volumeCount, caps);
      } else {
        BeginKeepsInvariant(State(), word, matchCount, volumeCount);
        entry := entry.(totalMatchCount := (entry.totalMatchCount + matchCount) % U64,
                        totalVolumeCount := (entry.totalVolumeCount + volumeCount) % U64);
        exited := false;
      }
    }

    /** `update_dictionary`, the flush on a word change writing what `caps`
        allows; on an exit the row is never stored. */
    method Update(word: seq<byte>, year: int, matchCount: nat, volumeCount: nat, caps: WriteCaps)
      returns (exited: bool)
      requires Valid() && State().Synced()
      requires UpdateAllowed(State(), word, matchCount, volumeCount)
      modifies this, table
      ensures Sized()
      ensures exited == UpdateExits(old(State()), word, caps)
      ensures exited ==> State() == FlushOutcome(old(State()), caps).state
      ensures !exited ==> Valid() && State().Synced()
      ensures !exited ==> State() == UpdateState(old(State()), word, year, matchCount, volumeCount)
      ensures forall i :: 0 <= i < table.Length && (exited || i != old(if lastWord == word then tableSize else 0))
                ==> table[i] == old(table[i])
    {
      UpdateKeepsInvariant(State(), word, year, matchCount, volumeCount);
      ghost var s := State();
      exited := BeginUpdate(word, matchCount, volumeCount, caps);
      if exited {
        return;
      }
      assert tableSize < table.Length;
      table[tableSize] := Row(year, matchCount, volumeCount);
      tableSize := tableSize + 1;
      assert table[..tableSize] == BeginRecord(s, word, matchCount, volumeCount).rows
                                   + [Row(year, matchCount, volumeCount)];
    }
  }
}
