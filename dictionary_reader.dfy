/** The store reader (`dictionary_reader.c`): the overflow-safe word bounds
    check, the `strcmp` comparator of indexed words, the number of index
    records, the per-year totals table and the error unwinding of
    `init_dictreader`.  The file handles and the reads are parameters: the
    outcome of each step is given, and the model follows the branches. */
module DictionaryReader {
  import opened Bytes
  import opened Wrappers
  import opened StoreTypes

  /** `is_in_word_bounds(dict, off, len)` for a word blob of `fileSize` bytes:
      the subtraction happens only once `off < size` is known, so it never
      wraps. */
  predicate IsInWordBounds(fileSize: nat, wordOffset: nat, wordLength: nat)
  {
    wordOffset < fileSize && wordLength <= fileSize - wordOffset
  }

  /** The check accepts exactly the words lying inside the blob that start
      inside it: a zero-length word at the very end is rejected. */
  lemma IsInWordBoundsIff(fileSize: nat, wordOffset: nat, wordLength: nat)
    ensures IsInWordBounds(fileSize, wordOffset, wordLength)
            <==> wordOffset + wordLength <= fileSize && wordOffset < fileSize
    ensures IsInWordBounds(fileSize, wordOffset, wordLength) ==> wordLength <= fileSize
    ensures !IsInWordBounds(fileSize, fileSize, 0)
  {
  }

  /** `num_words`: the whole 32-byte records the main file holds. */
  function NumWords(mainFileSize: nat): (n: nat)
    ensures n * DB_ENTRY_SIZE <= mainFileSize < (n + 1) * DB_ENTRY_SIZE
  {
    mainFileSize / DB_ENTRY_SIZE
  }

  /** struct indexed_word: a word and the position of its index record. */
  datatype IndexedWord = IndexedWord(index: nat, word: seq<byte>)

  /** `iw_compare`: the sign of `strcmp` on the two words. */
  function IwCompare(a: IndexedWord, b: IndexedWord): (r: int)
    ensures -1 <= r <= 1
    ensures r == 0 <==> a.word == b.word
  {
    StrCmpZeroIffEqual(a.word, b.word);
    StrCmp(a.word, b.word)
  }

  /** Swapping the arguments negates the comparison. */
  lemma IwCompareAntisymmetric(a: IndexedWord, b: IndexedWord)
    ensures IwCompare(a, b) == -IwCompare(b, a)
  {
    StrCmpAntisymmetric(a.word, b.word);
  }

  /** One chunk of the totals line after `strtok`/`atoi`/`strtoull`:
      year, match count, page count and volume count as parsed. */
  datatype YearTotals = YearTotals(year: int, matchCount: nat, pageCount: int, volumeCount: int)

  /** The row stored for a chunk: the `int` page and volume counts are cast
      to `uint32_t`, which is reduction modulo 2^32. */
  function StoredTotals(t: YearTotals): (r: TotalCounts)
    ensures r.matchCount == t.matchCount
    ensures r.pageCount < U32 && r.pageCount % U32 == t.pageCount % U32
    ensures r.volumeCount < U32 && r.volumeCount % U32 == t.volumeCount % U32
  {
    TotalCounts(t.matchCount, (t.pageCount % U32) as nat, (t.volumeCount % U32) as nat)
  }

  /** Every chunk's year indexes the table (`load_frequencies` does not
      check this). */
  predicate YearsInTable(chunks: seq<YearTotals>)
  {
    forall k :: 0 <= k < |chunks| ==> MIN_YEAR <= chunks[k].year < MIN_YEAR + READER_MAX_YEARS
  }

  /** The table after storing `chunks` in order into `table`. */
  function StoreAll(table: seq<TotalCounts>, chunks: seq<YearTotals>): (r: seq<TotalCounts>)
    requires |table| == READER_MAX_YEARS && YearsInTable(chunks)
    ensures |r| == READER_MAX_YEARS
    decreases |chunks|
  {
    if chunks == [] then table
    else StoreAll(table[chunks[0].year - MIN_YEAR := StoredTotals(chunks[0])], chunks[1..])
  }

  /** The last chunk of `chunks` for year `year`, if any. */
  function LastFor(chunks: seq<YearTotals>, year: int): (r: Option<YearTotals>)
    ensures r.Some? ==> r.value in chunks && r.value.year == year
    ensures r.None? <==> forall k :: 0 <= k < |chunks| ==> chunks[k].year != year
  {
    if chunks == [] then None
    else if chunks[|chunks| - 1].year == year then Some(chunks[|chunks| - 1])
    else LastFor(chunks[..|chunks| - 1], year)
  }

  /** Every slot of the loaded table holds the last chunk given for its year,
      and a year no chunk mentions keeps its previous value. */
  lemma {:induction false} StoreAllLastWins(table: seq<TotalCounts>, chunks: seq<YearTotals>, pos: nat)
    requires |table| == READER_MAX_YEARS && YearsInTable(chunks)
    requires pos < READER_MAX_YEARS
    ensures LastFor(chunks, MIN_YEAR + pos).Some? ==>
              StoreAll(table, chunks)[pos] == StoredTotals(LastFor(chunks, MIN_YEAR + pos).value)
    ensures LastFor(chunks, MIN_YEAR + pos).None? ==> StoreAll(table, chunks)[pos] == table[pos]
    decreases |chunks|
  {
    if chunks != [] {
      var table' := table[chunks[0].year - MIN_YEAR := StoredTotals(chunks[0])];
      StoreAllLastWins(table', chunks[1..], pos);
      LastForCons(chunks, MIN_YEAR + pos);
    }
  }

  lemma {:induction false} LastForCons(chunks: seq<YearTotals>, year: int)
    requires chunks != []
    ensures LastFor(chunks[1..], year).Some? ==> LastFor(chunks, year) == LastFor(chunks[1..], year)
    ensures LastFor(chunks[1..], year).None? ==>
              LastFor(chunks, year) == if chunks[0].year == year then Some(chunks[0]) else None
    decreases |chunks|
  {
    var n := |chunks|;
    if n > 1 && chunks[n - 1].year != year {
      LastForCons(chunks[..n - 1], year);
      assert chunks[..n - 1][1..] == chunks[1..][..n - 2];
    }
  }

  /** What the totals file gives `load_frequencies`: it cannot be opened, it
      has no first line, or its first line splits into these chunks. */
  datatype TotalsFile = Unopenable | NoLine | Line(chunks: seq<YearTotals>)

  /** What `init_dictreader` ends with. */
  datatype InitOutcome = InitOutcome(err: int, filesOpen: bool, wordsAllocated: bool)

  class Reader {
    var filesOpen: bool
    var wordsAllocated: bool
    var allWords: seq<byte>
    var numWords: nat
    var wordFileSize: int
    var timeFileSize: int
    const frequencies: array<TotalCounts>

    constructor ()
      ensures frequencies.Length == READER_MAX_YEARS && fresh(frequencies)
      ensures !filesOpen && !wordsAllocated
    {
      filesOpen, wordsAllocated := false, false;
      allWords, numWords, wordFileSize, timeFileSize := [], 0, 0, 0;
      frequencies := new TotalCounts[READER_MAX_YEARS](_ => TotalCounts(0, 0, 0));
    }

    /** `load_frequencies`: error 1 when the totals file cannot be opened or
        has no line; otherwise every chunk is stored at its year's slot, in
        order. */
    method LoadFrequencies(file: TotalsFile) returns (err: int)
      requires frequencies.Length == READER_MAX_YEARS
      requires file.Line? ==> YearsInTable(file.chunks)
      modifies frequencies
      ensures !file.Line? ==> err == 1 && frequencies[..] == old(frequencies[..])
      ensures file.Line? ==> err == 0 && frequencies[..] == StoreAll(old(frequencies[..]), file.chunks)
    {
      if !file.Line? {
        return 1;
      }
      var chunks := file.chunks;
      var k := 0;
      while k < |chunks|
        invariant 0 <= k <= |chunks|
        invariant StoreAll(frequencies[..], chunks[k..]) == StoreAll(old(frequencies[..]), chunks)
      {
        var pos := chunks[k].year - MIN_YEAR;
        ghost var before := frequencies[..];
        frequencies[pos] := StoredTotals(chunks[k]);
        assert frequencies[..] == before[pos := StoredTotals(chunks[k])];
        assert chunks[k..][1..] == chunks[k + 1..];
        k := k + 1;
      }
      assert chunks[k..] == [];
      return 0;
    }

    /** `init_dictreader`.  The step outcomes are parameters: the error of
        opening the three files, the totals file, the three file sizes (a
        negative size is a failed query), whether the blob allocation
        succeeds, and the bytes the blob read returns. */
    method Init(filesErr: int, totals: TotalsFile, mainFileSize: int, wordSize: int,
                timeSize: int, allocOk: bool, wordBytes: seq<byte>) returns (o: InitOutcome)
      requires frequencies.Length == READER_MAX_YEARS && !filesOpen && !wordsAllocated
      requires totals.Line? ==> YearsInTable(totals.chunks)
      requires wordSize >= 0 ==> |wordBytes| <= wordSize
      modifies this, frequencies
      ensures filesOpen == o.filesOpen && wordsAllocated == o.wordsAllocated
      ensures filesErr != 0 ==> o == InitOutcome(filesErr, false, false)
                                && frequencies[..] == old(frequencies[..])
      ensures filesErr == 0 ==> !totals.Line? ==> o == InitOutcome(1, false, false)
      ensures filesErr == 0 ==> forall pos :: 0 <= pos < READER_MAX_YEARS ==>
                frequencies[pos] == (if totals.Line? then StoreAll(Zeros(), totals.chunks)[pos]
                                     else TotalCounts(0, 0, 0))
      ensures filesErr == 0 && totals.Line? ==>
                if mainFileSize < 0 || wordSize < 0 || timeSize < 0 || !allocOk
                  || |wordBytes| != wordSize
                then o == InitOutcome(1, false, false)
                else o == InitOutcome(0, true, true)
                     && numWords == NumWords(mainFileSize) && allWords == wordBytes
                     && wordFileSize == wordSize && timeFileSize == timeSize
    {
      if filesErr != 0 {
        return InitOutcome(filesErr, false, false);
      }
      filesOpen := true;
      var i := 0;
      while i < frequencies.Length
        modifies frequencies
        invariant 0 <= i <= frequencies.Length
        invariant forall j :: 0 <= j < i ==> frequencies[j] == TotalCounts(0, 0, 0)
      {
        frequencies[i] := TotalCounts(0, 0, 0);
        i := i + 1;
      }
      assert frequencies[..] == Zeros();
      var err := LoadFrequencies(totals);
      if err != 0 {
        filesOpen := false;
        return InitOutcome(err, false, false);
      }
      if mainFileSize < 0 {
        filesOpen := false;
        return InitOutcome(1, false, false);
      }
      wordFileSize := wordSize;
      if wordFileSize < 0 {
        filesOpen := false;
        return InitOutcome(1, false, false);
      }
      timeFileSize := timeSize;
      if timeFileSize < 0 {
        filesOpen := false;
        return InitOutcome(1, false, false);
      }
      numWords := NumWords(mainFileSize);
      if !allocOk {
        filesOpen := false;
        return InitOutcome(1, false, false);
      }
      wordsAllocated := true;
      if |wordBytes| != wordSize {
        wordsAllocated := false;
        filesOpen := false;
        return InitOutcome(1, false, false);
      }
      allWords := wordBytes;
      return InitOutcome(0, true, true);
    }

    /** `destroy_dictreader`: after a successful `init_dictreader` the blob
        is freed and the files are closed; nothing else changes. */
    method Destroy()
      requires filesOpen && wordsAllocated
      modifies this
      ensures !filesOpen && !wordsAllocated
      ensures allWords == old(allWords) && numWords == old(numWords)
      ensures wordFileSize == old(wordFileSize) && timeFileSize == old(timeFileSize)
    {
      wordsAllocated := false;
      filesOpen := false;
    }
  }

  /** The zeroed totals table. */
  function Zeros(): (z: seq<TotalCounts>)
    ensures |z| == READER_MAX_YEARS
    ensures forall pos :: 0 <= pos < |z| ==> z[pos] == TotalCounts(0, 0, 0)
  {
    seq(READER_MAX_YEARS, _ => TotalCounts(0, 0, 0))
  }
}
