/** `sort_binary_data` of `sorter.c`: the reader's words are tagged with their
    record positions and sorted with `iw_compare`, then each tagged word's
    record gets its new offsets (in place, in the reader's index) and goes out
    with its word and its time rows.  The reader's words, its index, the
    outcome of `read_table` for every record and how many rows each time
    write accepts are parameters; the output files are the three streams. */
module SorterC {
  import opened Bytes
  import opened Wrappers
  import opened Sorting
  import opened StoreTypes
  import opened DictionaryReader
  import opened SortStage

  /** The rows `read_table` gives for record `index` (none when it fails). */
  function RowsAt(tables: seq<Result<seq<TimeEntry>, int>>, index: nat): seq<TimeEntry>
  {
    if index < |tables| && tables[index].Success? then tables[index].value else []
  }

  /** The k-th tagged word goes out in full: its table is read and the time
      write takes all of its rows. */
  predicate Copied(sw: seq<IndexedWord>, tables: seq<Result<seq<TimeEntry>, int>>,
                   capacity: seq<nat>, k: nat)
  {
    k < |sw| && k < |capacity| && sw[k].index < |tables| && tables[sw[k].index].Success?
    && |tables[sw[k].index].value| <= capacity[k]
  }

  /** Which tagged words go out in full. */
  function Passed(sw: seq<IndexedWord>, tables: seq<Result<seq<TimeEntry>, int>>,
                  capacity: seq<nat>): (ok: seq<bool>)
    ensures |ok| == |sw|
    ensures forall k :: 0 <= k < |sw| ==> ok[k] == Copied(sw, tables, capacity, k)
  {
    seq(|sw|, k requires 0 <= k < |sw| => Copied(sw, tables, capacity, k))
  }

  /** The rows `read_table` gives for every record position. */
  function ReadRows(tables: seq<Result<seq<TimeEntry>, int>>): (r: seq<seq<TimeEntry>>)
    ensures |r| == |tables|
    ensures forall i :: 0 <= i < |tables| ==> r[i] == RowsAt(tables, i)
  {
    seq(|tables|, i requires 0 <= i < |tables| => RowsAt(tables, i))
  }

  /** The error code and the streams the write loop ends with. */
  datatype LoopEnd = LoopEnd(err: int, streams: Streams)

  /** The write loop run to its stop c: every record out with error 0; the
      records before c out and the error of c's failed `read_table`; or also
      c's record, its word and the part of its rows its time write took,
      with error 2. */
  function WriteLoop(sw: seq<IndexedWord>, db: seq<DbEntry>,
                     tables: seq<Result<seq<TimeEntry>, int>>, capacity: seq<nat>): LoopEnd
    requires IndexesIn(sw, |db|) && |tables| == |db| && |capacity| == |sw|
  {
    var c := FirstFalse(Passed(sw, tables, capacity), 0);
    var s := Passes(sw, db, ReadRows(tables), c);
    if c == |sw| then LoopEnd(0, s)
    else if tables[sw[c].index].Failure? then LoopEnd(tables[sw[c].index].error, s)
    else LoopEnd(2, Emit(s, db[sw[c].index], sw[c].word, tables[sw[c].index].value[..capacity[c]]))
  }

  /** What the write loop leaves, with c the stopping position: all records,
      words and rows out and error 0; or the records before c out and the
      error of the failed `read_table`; or the records before c out, then
      c's record, its word and the rows its time write took (fewer than its
      table has), and error 2. */
  ghost predicate WriteResult(err: int, mainOut: seq<DbEntry>, wordOut: seq<byte>, timeOut: seq<TimeEntry>,
                              sw: seq<IndexedWord>, db: seq<DbEntry>,
                              tables: seq<Result<seq<TimeEntry>, int>>, capacity: seq<nat>)
    requires IndexesIn(sw, |db|) && |tables| == |db| && |capacity| == |sw|
  {
    var c := FirstFalse(Passed(sw, tables, capacity), 0);
    var tabs := Tables(sw, ReadRows(tables), c);
    && (c == |sw| ==> err == 0 && Emitted(mainOut, wordOut, timeOut, sw, db, tabs))
    && (c < |sw| && tables[sw[c].index].Failure? ==>
          err == tables[sw[c].index].error && Emitted(mainOut, wordOut, timeOut, sw, db, tabs))
    && (c < |sw| && tables[sw[c].index].Success? ==>
          err == 2 && capacity[c] < |tables[sw[c].index].value|
          && Emitted(mainOut, wordOut, timeOut, sw, db, tabs + [tables[sw[c].index].value[..capacity[c]]]))
  }

  /** The write loop's outcome has the layout `WriteResult` describes. */
  lemma WriteLoopResult(sw: seq<IndexedWord>, db: seq<DbEntry>,
                        tables: seq<Result<seq<TimeEntry>, int>>, capacity: seq<nat>)
    requires IndexesIn(sw, |db|) && |tables| == |db| && |capacity| == |sw|
    ensures var o := WriteLoop(sw, db, tables, capacity);
            WriteResult(o.err, o.streams.mainOut, o.streams.wordOut, o.streams.timeOut, sw, db, tables, capacity)
  {
    var c := FirstFalse(Passed(sw, tables, capacity), 0);
    if c < |sw| && tables[sw[c].index].Success? {
      EmitPartial(sw, db, ReadRows(tables), c, tables[sw[c].index].value[..capacity[c]]);
    } else {
      PassesEmitted(sw, db, ReadRows(tables), c);
    }
  }

  /** A write loop ending with error 0 has emitted every record once, in
      `strcmp` order of the words: record k is the record of the k-th sorted
      word as read except for its offsets, which are the wrapped running sums
      of the word lengths and of 16 bytes per row before it; the word stream
      is the sorted words end to end and the time stream their tables. */
  lemma {:induction false} CompleteRunLayout(words: seq<seq<byte>>, db: seq<DbEntry>,
                                             tables: seq<Result<seq<TimeEntry>, int>>, capacity: seq<nat>)
    requires |words| == |db| == |tables| == |capacity|
    requires forall i :: 0 <= i < |tables| ==> tables[i].Failure? ==> tables[i].error != 0
    requires WriteLoop(SortedWords(words), db, tables, capacity).err == 0
    ensures var sw, o := SortedWords(words), WriteLoop(SortedWords(words), db, tables, capacity).streams;
            && |o.mainOut| == |words|
            && (forall k :: 0 <= k < |words| ==> SameExceptOffsets(o.mainOut[k], db[sw[k].index]))
            && o.wordOut == Flatten(WordsOf(sw))
            && o.timeOut == Flatten(Tables(sw, ReadRows(tables), |sw|))
            && OffsetsFollow(o.mainOut, Lengths(WordsOf(sw)), Lengths(Tables(sw, ReadRows(tables), |sw|)))
  {
    var sw := SortedWords(words);
    assert FirstFalse(Passed(sw, tables, capacity), 0) == |sw|;
    PassesLayout(sw, db, ReadRows(tables), |sw|);
    assert sw[..|sw|] == sw;
  }

  /** The write loop's outcome where it stops on a failed `read_table`. */
  lemma WriteLoopReadFailure(sw: seq<IndexedWord>, db: seq<DbEntry>,
                             tables: seq<Result<seq<TimeEntry>, int>>, capacity: seq<nat>, i: nat)
    requires IndexesIn(sw, |db|) && |tables| == |db| && |capacity| == |sw|
    requires i <= FirstFalse(Passed(sw, tables, capacity), 0) && i < |sw|
    requires tables[sw[i].index].Failure?
    ensures WriteLoop(sw, db, tables, capacity)
            == LoopEnd(tables[sw[i].index].error, Passes(sw, db, ReadRows(tables), i))
  {
    FirstFalseAt(Passed(sw, tables, capacity), i);
  }

  /** The write loop's outcome where a time write comes up short. */
  lemma WriteLoopShortWrite(sw: seq<IndexedWord>, db: seq<DbEntry>,
                            tables: seq<Result<seq<TimeEntry>, int>>, capacity: seq<nat>, i: nat)
    requires IndexesIn(sw, |db|) && |tables| == |db| && |capacity| == |sw|
    requires i <= FirstFalse(Passed(sw, tables, capacity), 0) && i < |sw|
    requires tables[sw[i].index].Success? && capacity[i] < |tables[sw[i].index].value|
    ensures WriteLoop(sw, db, tables, capacity)
            == LoopEnd(2, Emit(Passes(sw, db, ReadRows(tables), i), db[sw[i].index], sw[i].word,
                               tables[sw[i].index].value[..capacity[i]]))
  {
    FirstFalseAt(Passed(sw, tables, capacity), i);
  }

  /** The write loop's outcome when every pass completes. */
  lemma WriteLoopComplete(sw: seq<IndexedWord>, db: seq<DbEntry>,
                          tables: seq<Result<seq<TimeEntry>, int>>, capacity: seq<nat>)
    requires IndexesIn(sw, |db|) && |tables| == |db| && |capacity| == |sw|
    requires |sw| <= FirstFalse(Passed(sw, tables, capacity), 0)
    ensures WriteLoop(sw, db, tables, capacity) == LoopEnd(0, Passes(sw, db, ReadRows(tables), |sw|))
  {
  }

  /** A completed pass at a position up to the stop moves the stop past it. */
  lemma PassedNext(sw: seq<IndexedWord>, tables: seq<Result<seq<TimeEntry>, int>>, capacity: seq<nat>, i: nat)
    requires i <= FirstFalse(Passed(sw, tables, capacity), 0) && i < |sw|
    requires Copied(sw, tables, capacity, i)
    ensures i + 1 <= FirstFalse(Passed(sw, tables, capacity), 0)
  {
  }

  /** The sorted tagged words index the records, each once.  Every word is a
      C string, every failure a non-zero error and every table fits the
      `MAX_YEARS` buffer. */
  ghost predicate WriteInputs(sw: seq<IndexedWord>, n: nat,
                              tables: seq<Result<seq<TimeEntry>, int>>, capacity: seq<nat>)
  {
    && |sw| == n && |tables| == n && |capacity| == n
    && IndexesIn(sw, n)
    && (forall k :: 0 <= k < n ==> IsCString(sw[k].word))
    && (forall i :: 0 <= i < n ==> tables[i].Failure? ==> tables[i].error != 0)
    && (forall i :: 0 <= i < n ==> tables[i].Success? ==> |tables[i].value| <= READER_MAX_YEARS)
  }

  /** The writes of one pass: the record at `index` gets the running offsets
      in place and goes out, then its word (`strlen` bytes) and as many of its
      rows as the time write takes, which is reported. */
  method EmitEntry(database: array<DbEntry>, index: nat, word: seq<byte>, table: seq<TimeEntry>,
                   capacity: nat, woff: nat, toff: nat,
                   mainOut: seq<DbEntry>, wordOut: seq<byte>, timeOut: seq<TimeEntry>)
    returns (numWritten: nat, mainOut': seq<DbEntry>, wordOut': seq<byte>, timeOut': seq<TimeEntry>)
    requires index < database.Length && IsCString(word)
    modifies database
    ensures numWritten == if capacity < |table| then capacity else |table|
    ensures database[..] == old(database[..])[index := Relocated(old(database[index]), woff, toff)]
    ensures mainOut' == mainOut + [Relocated(old(database[index]), woff, toff)]
    ensures wordOut' == wordOut + word && timeOut' == timeOut + table[..numWritten]
  {
    var entry := database[index];
    database[index] := entry.(wordOffset := woff, timeOffset := toff);
    var wlength := StrLen(word);
    StrLenOfCString(word);
    assert word[..wlength] == word;
    numWritten := if capacity < |table| then capacity else |table|;
    mainOut' := mainOut + [database[index]];
    wordOut' := wordOut + word[..wlength];
    timeOut' := timeOut + table[..numWritten];
  }

  /** Moving the offsets of two records that agree elsewhere gives one record. */
  lemma RelocatedSame(a: DbEntry, b: DbEntry, wordOffset: nat, timeOffset: nat)
    requires SameExceptOffsets(a, b)
    ensures Relocated(a, wordOffset, timeOffset) == Relocated(b, wordOffset, timeOffset)
  {
  }

  /** Pass i emits the record, word and rows of the i-th tagged word. */
  lemma PassStep(sw: seq<IndexedWord>, db: seq<DbEntry>, rowsOf: seq<seq<TimeEntry>>, i: nat, before: Streams,
                 tables: seq<Result<seq<TimeEntry>, int>>, table: seq<TimeEntry>)
    requires i < |sw| && IndexesIn(sw, |db|) && |tables| == |db| && rowsOf == ReadRows(tables)
    requires before == Passes(sw, db, rowsOf, i) && tables[sw[i].index] == Success(table)
    ensures Passes(sw, db, rowsOf, i + 1) == Emit(before, db[sw[i].index], sw[i].word, table)
  {
  }

  /** The write loop of `sort_binary_data`. */
  method WriteSorted(database: array<DbEntry>, sw: seq<IndexedWord>,
                     tables: seq<Result<seq<TimeEntry>, int>>, capacity: seq<nat>)
    returns (err: int, mainOut: seq<DbEntry>, wordOut: seq<byte>, timeOut: seq<TimeEntry>)
    requires WriteInputs(sw, database.Length, tables, capacity)
    modifies database
    ensures var o := WriteLoop(sw, old(database[..]), tables, capacity);
            err == o.err && mainOut == o.streams.mainOut && wordOut == o.streams.wordOut
            && timeOut == o.streams.timeOut
    ensures forall j :: 0 <= j < database.Length ==> SameExceptOffsets(database[j], old(database[j]))
  {
    ghost var db := database[..];
    var woff: nat, toff: nat := 0, 0;
    err, mainOut, wordOut, timeOut := 0, [], [], [];
    var i := 0;
    while i < |sw|
      invariant 0 <= i <= FirstFalse(Passed(sw, tables, capacity), 0) && err == 0
      invariant Streams(woff, toff, mainOut, wordOut, timeOut) == Passes(sw, db, ReadRows(tables), i)
      invariant forall j :: 0 <= j < database.Length ==> SameExceptOffsets(database[j], db[j])
      invariant forall j :: 0 <= j < database.Length ==> db[j] == old(database[j])
    {
      var done;
      err, done, woff, toff, mainOut, wordOut, timeOut :=
        WritePass(database, sw, tables, capacity, db, i, woff, toff, mainOut, wordOut, timeOut);
      if done {
        return;
      }
      i := i + 1;
    }
    WriteLoopComplete(sw, db, tables, capacity);
  }

  /** Pass i of the write loop: it either ends the loop, with the loop's
      outcome, or emits the i-th tagged word's record, word and rows. */
  method WritePass(database: array<DbEntry>, sw: seq<IndexedWord>,
                   tables: seq<Result<seq<TimeEntry>, int>>, capacity: seq<nat>, ghost db: seq<DbEntry>,
                   i: nat, woff: nat, toff: nat, mainOut: seq<DbEntry>, wordOut: seq<byte>, timeOut: seq<TimeEntry>)
    returns (err: int, done: bool, woff': nat, toff': nat,
             mainOut': seq<DbEntry>, wordOut': seq<byte>, timeOut': seq<TimeEntry>)
    requires WriteInputs(sw, database.Length, tables, capacity) && |db| == database.Length
    requires i < |sw| && i <= FirstFalse(Passed(sw, tables, capacity), 0)
    requires Streams(woff, toff, mainOut, wordOut, timeOut) == Passes(sw, db, ReadRows(tables), i)
    requires forall j :: 0 <= j < database.Length ==> SameExceptOffsets(database[j], db[j])
    modifies database
    ensures forall j :: 0 <= j < database.Length ==> SameExceptOffsets(database[j], db[j])
    ensures done ==> var o := WriteLoop(sw, db, tables, capacity);
                     err == o.err && mainOut' == o.streams.mainOut && wordOut' == o.streams.wordOut
                     && timeOut' == o.streams.timeOut
    ensures !done ==> err == 0 && i + 1 <= FirstFalse(Passed(sw, tables, capacity), 0)
                      && Streams(woff', toff', mainOut', wordOut', timeOut') == Passes(sw, db, ReadRows(tables), i + 1)
  {
    woff', toff', mainOut', wordOut', timeOut' := woff, toff, mainOut, wordOut, timeOut;
    var index := sw[i].index;
    var word := sw[i].word;
    if tables[index].Failure? {
      err, done := tables[index].error, true;
      WriteLoopReadFailure(sw, db, tables, capacity, i);
      return;
    }
    var table := tables[index].value;
    ghost var before := Streams(woff, toff, mainOut, wordOut, timeOut);
    RelocatedSame(database[index], db[index], woff, toff);
    PassStep(sw, db, ReadRows(tables), i, before, tables, table);
    var numWritten;
    numWritten, mainOut', wordOut', timeOut' :=
      EmitEntry(database, index, word, table, capacity[i], woff, toff, mainOut, wordOut, timeOut);
    if numWritten != |table| {
      err, done := 2, true;
      WriteLoopShortWrite(sw, db, tables, capacity, i);
      return;
    }
    assert table[..numWritten] == table;
    PassedNext(sw, tables, capacity, i);
    err, done := 0, false;
    toff' := AdvanceTime(toff, |table|);
    woff' := AdvanceWord(woff, |word|);
  }

  /** The fill loop and the `qsort` call: the reader's words tagged with
      their positions, in `iw_compare` order. */
  method TagAndSort(words: seq<seq<byte>>) returns (sw: seq<IndexedWord>)
    ensures sw == SortedWords(words)
  {
    var n := |words|;
    var iw := new IndexedWord[n](_ => IndexedWord(0, []));
    var i := 0;
    while i < n
      invariant 0 <= i <= n
      invariant forall k :: 0 <= k < i ==> iw[k] == IndexedWord(k, words[k])
    {
      iw[i] := IndexedWord(i, words[i]);
      i := i + 1;
    }
    assert iw[..] == Indexed(words);
    QSort(iw);
    sw := iw[..];
  }

  /** `sort_binary_data`: `readerErr` and `filesErr` are what
      `init_dictreader` and `init_dictfiles` return.  The result says which
      of the two was torn down: a failed reader leaves nothing to tear down,
      failed output files leave the reader, and from then on every exit
      tears down both. */
  method SortBinaryData(readerErr: int, filesErr: int, words: seq<seq<byte>>, database: array<DbEntry>,
                        tables: seq<Result<seq<TimeEntry>, int>>, capacity: seq<nat>)
    returns (err: int, mainOut: seq<DbEntry>, wordOut: seq<byte>, timeOut: seq<TimeEntry>,
             filesDestroyed: bool, readerDestroyed: bool)
    requires |words| == database.Length == |tables| == |capacity| <= MAX_ENTRIES
    requires forall i :: 0 <= i < |words| ==> IsCString(words[i])
    requires forall i :: 0 <= i < |tables| ==> tables[i].Failure? ==> tables[i].error != 0
    requires forall i :: 0 <= i < |tables| ==> tables[i].Success? ==> |tables[i].value| <= READER_MAX_YEARS
    modifies database
    ensures readerErr != 0 ==>
              err == readerErr && !filesDestroyed && !readerDestroyed
              && mainOut == [] && wordOut == [] && timeOut == [] && database[..] == old(database[..])
    ensures readerErr == 0 && filesErr != 0 ==>
              err == filesErr && !filesDestroyed && readerDestroyed
              && mainOut == [] && wordOut == [] && timeOut == [] && database[..] == old(database[..])
    ensures readerErr == 0 && filesErr == 0 ==>
              filesDestroyed && readerDestroyed
              && var o := WriteLoop(SortedWords(words), old(database[..]), tables, capacity);
                 err == o.err && mainOut == o.streams.mainOut && wordOut == o.streams.wordOut
                 && timeOut == o.streams.timeOut
    ensures forall j :: 0 <= j < database.Length ==> SameExceptOffsets(database[j], old(database[j]))
  {
    mainOut, wordOut, timeOut := [], [], [];
    filesDestroyed, readerDestroyed := false, false;
    if readerErr != 0 {
      return readerErr, mainOut, wordOut, timeOut, filesDestroyed, readerDestroyed;
    }
    if filesErr != 0 {
      readerDestroyed := true;
      return filesErr, mainOut, wordOut, timeOut, filesDestroyed, readerDestroyed;
    }
    var sw := TagAndSort(words);
    assert WriteInputs(sw, database.Length, tables, capacity);
    err, mainOut, wordOut, timeOut := WriteSorted(database, sw, tables, capacity);
    filesDestroyed, readerDestroyed := true, true;
  }
}
