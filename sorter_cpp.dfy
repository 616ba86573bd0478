/** `sort_binary_data` of `sorter.cpp`, the older sorter: it reads the whole
    index itself, checks every record's word against the word blob and
    copies it out as a C string, sorts the tagged copies with `iw_compare`,
    and for each one seeks to the record's rows in the time file, reads
    them, gives the record its new offsets in place and writes all three
    streams.  A failed seek, a short read or a short write ends the process
    (`exit(EXIT_FAILURE)`).  The index records read, the word blob, the
    outcome of each seek and time read and how many rows each time write
    accepts are parameters. */
module SorterCpp {
  import opened Bytes
  import opened StoreTypes
  import opened DictionaryReader
  import opened SortStage

  /** How `sort_binary_data` ends: it returns an error code, or the process
      exits with `EXIT_FAILURE`. */
  datatype Status = Returned(err: int) | Exited

  /** The copy of a record's word: its `word_length` bytes at `word_offset`
      with a NUL after them, read as a C string, so it ends at the first NUL
      byte among them. */
  function MaterialisedWord(blob: seq<byte>, e: DbEntry): (w: seq<byte>)
    requires IsInWordBounds(|blob|, e.wordOffset, e.wordLength)
    ensures |w| <= e.wordLength && IsCString(w)
    ensures forall k :: 0 <= k < |w| ==> w[k] == blob[e.wordOffset + k]
    ensures |w| < e.wordLength ==> blob[e.wordOffset + |w|] == 0
  {
    var raw := blob[e.wordOffset..e.wordOffset + e.wordLength];
    raw[..StrLen(raw)]
  }

  /** Every record's word lies in the blob. */
  predicate AllInBounds(blob: seq<byte>, db: seq<DbEntry>)
  {
    forall i :: 0 <= i < |db| ==> IsInWordBounds(|blob|, db[i].wordOffset, db[i].wordLength)
  }

  function Materialised(blob: seq<byte>, db: seq<DbEntry>): (words: seq<seq<byte>>)
    requires AllInBounds(blob, db)
    ensures |words| == |db|
    ensures forall i :: 0 <= i < |db| ==> words[i] == MaterialisedWord(blob, db[i])
  {
    seq(|db|, i requires 0 <= i < |db| => MaterialisedWord(blob, db[i]))
  }

  /** The bounds-check loop: the first record whose word is out of the blob
      ends the process; otherwise every record's word copy is tagged with
      its position. */
  method MaterialiseWords(database: array<DbEntry>, blob: seq<byte>) returns (ok: bool, iw: array<IndexedWord>)
    ensures ok <==> AllInBounds(blob, database[..])
    ensures ok ==> iw[..] == Indexed(Materialised(blob, database[..]))
    ensures fresh(iw)
  {
    var n := database.Length;
    iw := new IndexedWord[n](_ => IndexedWord(0, []));
    var i := 0;
    while i < n
      invariant 0 <= i <= n
      invariant forall k :: 0 <= k < i ==> IsInWordBounds(|blob|, database[k].wordOffset, database[k].wordLength)
      invariant forall k :: 0 <= k < i ==> iw[k] == IndexedWord(k, MaterialisedWord(blob, database[k]))
    {
      var wordOffset, wordLength := database[i].wordOffset, database[i].wordLength;
      if !IsInWordBounds(|blob|, wordOffset, wordLength) {
        return false, iw;
      }
      var raw := blob[wordOffset..wordOffset + wordLength];
      iw[i] := IndexedWord(i, raw[..StrLen(raw)]);
      i := i + 1;
    }
    ok := true;
    assert iw[..] == Indexed(Materialised(blob, database[..]));
  }

  /** The k-th tagged word goes out in full: the seek to its record's rows
      succeeds, the read gets all `time_length` of them and the time write
      takes them all. */
  predicate Copied(sw: seq<IndexedWord>, db: seq<DbEntry>, seekOk: seq<bool>, rowsRead: seq<seq<TimeEntry>>,
                   capacity: seq<nat>, k: nat)
  {
    k < |sw| && k < |capacity| && sw[k].index < |db| && sw[k].index < |seekOk| && sw[k].index < |rowsRead|
    && seekOk[sw[k].index] && |rowsRead[sw[k].index]| == db[sw[k].index].timeLength
    && |rowsRead[sw[k].index]| <= capacity[k]
  }

  /** Which tagged words go out in full. */
  function Passed(sw: seq<IndexedWord>, db: seq<DbEntry>, seekOk: seq<bool>, rowsRead: seq<seq<TimeEntry>>,
                  capacity: seq<nat>): (ok: seq<bool>)
    ensures |ok| == |sw|
    ensures forall k :: 0 <= k < |sw| ==> ok[k] == Copied(sw, db, seekOk, rowsRead, capacity, k)
  {
    seq(|sw|, k requires 0 <= k < |sw| => Copied(sw, db, seekOk, rowsRead, capacity, k))
  }

  /** Whether the process exits, and the streams written by then. */
  datatype LoopEnd = LoopEnd(exited: bool, streams: Streams)

  /** The write loop run to its stop c: every record, word and table out; or
      the records before c out and an exit at c's failed seek or short read;
      or also c's record, its word and the part of its rows its time write
      took, and an exit. */
  function WriteLoop(sw: seq<IndexedWord>, db: seq<DbEntry>, seekOk: seq<bool>, rowsRead: seq<seq<TimeEntry>>,
                     capacity: seq<nat>): LoopEnd
    requires IndexesIn(sw, |db|) && |seekOk| == |db| && |rowsRead| == |db| && |capacity| == |sw|
  {
    var c := FirstFalse(Passed(sw, db, seekOk, rowsRead, capacity), 0);
    var s := Passes(sw, db, rowsRead, c);
    if c == |sw| then LoopEnd(false, s)
    else
      var index := sw[c].index;
      if !seekOk[index] || |rowsRead[index]| != db[index].timeLength then LoopEnd(true, s)
      else LoopEnd(true, Emit(s, db[index], sw[c].word, rowsRead[index][..capacity[c]]))
  }

  lemma WriteLoopStops(sw: seq<IndexedWord>, db: seq<DbEntry>, seekOk: seq<bool>, rowsRead: seq<seq<TimeEntry>>,
                       capacity: seq<nat>, i: nat)
    requires IndexesIn(sw, |db|) && |seekOk| == |db| && |rowsRead| == |db| && |capacity| == |sw|
    requires i <= FirstFalse(Passed(sw, db, seekOk, rowsRead, capacity), 0) && i < |sw|
    requires !Copied(sw, db, seekOk, rowsRead, capacity, i)
    ensures !seekOk[sw[i].index] || |rowsRead[sw[i].index]| != db[sw[i].index].timeLength ==>
              WriteLoop(sw, db, seekOk, rowsRead, capacity) == LoopEnd(true, Passes(sw, db, rowsRead, i))
    ensures seekOk[sw[i].index] && |rowsRead[sw[i].index]| == db[sw[i].index].timeLength ==>
              WriteLoop(sw, db, seekOk, rowsRead, capacity)
              == LoopEnd(true, Emit(Passes(sw, db, rowsRead, i), db[sw[i].index], sw[i].word,
                                    rowsRead[sw[i].index][..capacity[i]]))
  {
    FirstFalseAt(Passed(sw, db, seekOk, rowsRead, capacity), i);
  }

  lemma WriteLoopComplete(sw: seq<IndexedWord>, db: seq<DbEntry>, seekOk: seq<bool>, rowsRead: seq<seq<TimeEntry>>,
                          capacity: seq<nat>)
    requires IndexesIn(sw, |db|) && |seekOk| == |db| && |rowsRead| == |db| && |capacity| == |sw|
    requires |sw| <= FirstFalse(Passed(sw, db, seekOk, rowsRead, capacity), 0)
    ensures WriteLoop(sw, db, seekOk, rowsRead, capacity) == LoopEnd(false, Passes(sw, db, rowsRead, |sw|))
  {
  }

  lemma PassedNext(sw: seq<IndexedWord>, db: seq<DbEntry>, seekOk: seq<bool>, rowsRead: seq<seq<TimeEntry>>,
                   capacity: seq<nat>, i: nat)
    requires i <= FirstFalse(Passed(sw, db, seekOk, rowsRead, capacity), 0) && i < |sw|
    requires Copied(sw, db, seekOk, rowsRead, capacity, i)
    ensures i + 1 <= FirstFalse(Passed(sw, db, seekOk, rowsRead, capacity), 0)
  {
  }

  /** The tagged words index the records, each once, and are C strings;
      every record's table fits the `MAX_YEARS` buffer and no read gives
      more rows than asked for. */
  ghost predicate WriteInputs(sw: seq<IndexedWord>, db: seq<DbEntry>, seekOk: seq<bool>,
                              rowsRead: seq<seq<TimeEntry>>, capacity: seq<nat>)
  {
    && |sw| == |db| && |seekOk| == |db| && |rowsRead| == |db| && |capacity| == |db|
    && IndexesIn(sw, |db|)
    && (forall k :: 0 <= k < |sw| ==> IsCString(sw[k].word))
    && (forall i :: 0 <= i < |db| ==> db[i].timeLength <= READER_MAX_YEARS && |rowsRead[i]| <= db[i].timeLength)
  }

  /** The writes of one pass: the record at `index` gets the running offsets
      in place and goes out, then its word (`strlen` bytes) and as many of its
      rows as the time write takes, which is reported. */
  method EmitEntry(database: array<DbEntry>, index: nat, word: seq<byte>, table: seq<TimeEntry>,
                   capacity: nat, woff: nat, toff: nat,
                   mainOut: seq<DbEntry>, wordOut: seq<byte>, timeOut: seq<TimeEntry>)
    returns (numWritten: nat, mainOut': seq<DbEntry>, wordOut': seq<byte>, timeOut': seq<TimeEntry>)
    requires index < database.Length && IsCString(word)
    modifies database
    ensures numWritten == if capacity < |table| then capacity else |table|
    ensures database[..] == old(database[..])[index := Relocated(old(database[index]), woff, toff)]
    ensures mainOut' == mainOut + [Relocated(old(database[index]), woff, toff)]
    ensures wordOut' == wordOut + word && timeOut' == timeOut + table[..numWritten]
  {
    var wlength := StrLen(word);
    StrLenOfCString(word);
    assert word[..wlength] == word;
    var entry := database[index];
    database[index] := entry.(wordOffset := woff, timeOffset := toff);
    numWritten := if capacity < |table| then capacity else |table|;
    mainOut' := mainOut + [database[index]];
    wordOut' := wordOut + word[..wlength];
    timeOut' := timeOut + table[..numWritten];
  }

  /** The write loop of `sort_binary_data`. */
  method WriteSorted(database: array<DbEntry>, sw: seq<IndexedWord>, seekOk: seq<bool>,
                     rowsRead: seq<seq<TimeEntry>>, capacity: seq<nat>)
    returns (exited: bool, mainOut: seq<DbEntry>, wordOut: seq<byte>, timeOut: seq<TimeEntry>)
    requires WriteInputs(sw, database[..], seekOk, rowsRead, capacity)
    modifies database
    ensures var o := WriteLoop(sw, old(database[..]), seekOk, rowsRead, capacity);
            exited == o.exited && mainOut == o.streams.mainOut && wordOut == o.streams.wordOut
            && timeOut == o.streams.timeOut
    ensures forall j :: 0 <= j < database.Length ==> SameExceptOffsets(database[j], old(database[j]))
  {
    ghost var db := database[..];
    ghost var stop := FirstFalse(Passed(sw, db, seekOk, rowsRead, capacity), 0);
    var woff: nat, toff: nat := 0, 0;
    exited, mainOut, wordOut, timeOut := false, [], [], [];
    var i := 0;
    while i < |sw|
      invariant 0 <= i <= stop
      invariant Streams(woff, toff, mainOut, wordOut, timeOut) == Passes(sw, db, rowsRead, i)
      invariant forall j :: 0 <= j < database.Length ==> SameExceptOffsets(database[j], db[j])
    {
      var index := sw[i].index;
      var word := sw[i].word;
      var tlength := database[index].timeLength;
      assert SameExceptOffsets(database[index], db[index]);
      if !seekOk[index] {
        WriteLoopStops(sw, db, seekOk, rowsRead, capacity, i);
        return true, mainOut, wordOut, timeOut;
      }
      var table := rowsRead[index];
      if |table| != tlength {
        WriteLoopStops(sw, db, seekOk, rowsRead, capacity, i);
        return true, mainOut, wordOut, timeOut;
      }
      ghost var before := Streams(woff, toff, mainOut, wordOut, timeOut);
      var numWritten;
      numWritten, mainOut, wordOut, timeOut :=
        EmitEntry(database, index, word, table, capacity[i], woff, toff, mainOut, wordOut, timeOut);
      if numWritten != tlength {
        WriteLoopStops(sw, db, seekOk, rowsRead, capacity, i);
        return true, mainOut, wordOut, timeOut;
      }
      assert table[..numWritten] == table;
      PassedNext(sw, db, seekOk, rowsRead, capacity, i);
      toff := AdvanceTime(toff, tlength);
      woff := AdvanceWord(woff, |word|);
      assert Passes(sw, db, rowsRead, i + 1) == Emit(before, db[index], word, table);
      assert Streams(woff, toff, mainOut, wordOut, timeOut) == Emit(before, db[index], word, table);
      i := i + 1;
    }
    WriteLoopComplete(sw, db, seekOk, rowsRead, capacity);
  }

  /** The whole run, `numWords` being the reader's record count and
      `mainRecords` what the index read returns.  Errors of the reader or the
      output files are returned as in `sorter.c`; a short index read returns
      1 after tearing both down; a word out of bounds, a failed seek, a short
      time read or a short time write exits; a full run returns 0 after
      tearing both down. */
  method SortBinaryData(readerErr: int, filesErr: int, numWords: nat, mainRecords: seq<DbEntry>,
                        blob: seq<byte>, seekOk: seq<bool>, rowsRead: seq<seq<TimeEntry>>, capacity: seq<nat>)
    returns (status: Status, mainOut: seq<DbEntry>, wordOut: seq<byte>, timeOut: seq<TimeEntry>,
             filesDestroyed: bool, readerDestroyed: bool)
    requires numWords <= MAX_ENTRIES && |mainRecords| <= numWords
    requires |seekOk| == numWords && |rowsRead| == numWords && |capacity| == numWords
    requires forall i :: 0 <= i < |mainRecords| ==>
               mainRecords[i].timeLength <= READER_MAX_YEARS && |rowsRead[i]| <= mainRecords[i].timeLength
    ensures readerErr != 0 ==>
              status == Returned(readerErr) && !filesDestroyed && !readerDestroyed
              && mainOut == [] && wordOut == [] && timeOut == []
    ensures readerErr == 0 && filesErr != 0 ==>
              status == Returned(filesErr) && !filesDestroyed && readerDestroyed
              && mainOut == [] && wordOut == [] && timeOut == []
    ensures readerErr == 0 && filesErr == 0 && |mainRecords| != numWords ==>
              status == Returned(1) && filesDestroyed && readerDestroyed
              && mainOut == [] && wordOut == [] && timeOut == []
    ensures readerErr == 0 && filesErr == 0 && |mainRecords| == numWords && !AllInBounds(blob, mainRecords) ==>
              status == Exited && !filesDestroyed && !readerDestroyed
              && mainOut == [] && wordOut == [] && timeOut == []
    ensures readerErr == 0 && filesErr == 0 && |mainRecords| == numWords && AllInBounds(blob, mainRecords) ==>
              var o := WriteLoop(SortedWords(Materialised(blob, mainRecords)), mainRecords, seekOk, rowsRead, capacity);
              && (if o.exited then status == Exited else status == Returned(0))
              && filesDestroyed == readerDestroyed == !o.exited
              && mainOut == o.streams.mainOut && wordOut == o.streams.wordOut && timeOut == o.streams.timeOut
  {
    mainOut, wordOut, timeOut := [], [], [];
    filesDestroyed, readerDestroyed := false, false;
    if readerErr != 0 {
      return Returned(readerErr), mainOut, wordOut, timeOut, filesDestroyed, readerDestroyed;
    }
    if filesErr != 0 {
      readerDestroyed := true;
      return Returned(filesErr), mainOut, wordOut, timeOut, filesDestroyed, readerDestroyed;
    }
    if |mainRecords| != numWords {
      filesDestroyed, readerDestroyed := true, true;
      return Returned(1), mainOut, wordOut, timeOut, filesDestroyed, readerDestroyed;
    }
    var database := new DbEntry[numWords](i requires 0 <= i < numWords => mainRecords[i]);
    assert database[..] == mainRecords;
    var ok, iw := MaterialiseWords(database, blob);
    if !ok {
      return Exited, mainOut, wordOut, timeOut, filesDestroyed, readerDestroyed;
    }
    QSort(iw);
    ghost var words := Materialised(blob, mainRecords);
    assert iw[..] == SortedWords(words);
    var exited;
    exited, mainOut, wordOut, timeOut := WriteSorted(database, iw[..], seekOk, rowsRead, capacity);
    if exited {
      return Exited, mainOut, wordOut, timeOut, filesDestroyed, readerDestroyed;
    }
    filesDestroyed, readerDestroyed := true, true;
    status := Returned(0);
  }

  /** A run that does not exit has emitted every record once, in the order
      of the tagged words (for `sort_binary_data`, the `strcmp` order of the
      word copies): record k is the record of the k-th tagged word as read
      except for its offsets, which are the wrapped running sums of the word
      lengths and of 16 bytes per row before it, and its rows all went out;
      the word stream is the tagged words end to end and the time stream
      their rows. */
  lemma {:induction false} CompleteRunLayout(sw: seq<IndexedWord>, db: seq<DbEntry>, seekOk: seq<bool>,
                                             rowsRead: seq<seq<TimeEntry>>, capacity: seq<nat>)
    requires IndexesIn(sw, |db|) && |sw| == |db|
    requires |seekOk| == |db| && |rowsRead| == |db| && |capacity| == |db|
    requires !WriteLoop(sw, db, seekOk, rowsRead, capacity).exited
    ensures var o := WriteLoop(sw, db, seekOk, rowsRead, capacity).streams;
            && |o.mainOut| == |db|
            && (forall k :: 0 <= k < |db| ==>
                  SameExceptOffsets(o.mainOut[k], db[sw[k].index])
                  && o.mainOut[k].timeLength == |rowsRead[sw[k].index]|)
            && o.wordOut == Flatten(WordsOf(sw))
            && o.timeOut == Flatten(Tables(sw, rowsRead, |sw|))
            && OffsetsFollow(o.mainOut, Lengths(WordsOf(sw)), Lengths(Tables(sw, rowsRead, |sw|)))
  {
    var ok := Passed(sw, db, seekOk, rowsRead, capacity);
    assert FirstFalse(ok, 0) == |sw|;
    PassesLayout(sw, db, rowsRead, |sw|);
    assert sw[..|sw|] == sw;
    forall k | 0 <= k < |db|
      ensures |rowsRead[sw[k].index]| == db[sw[k].index].timeLength
    {
      assert ok[k];
    }
  }
}
