/** The Python reader of the store (`dictionary.py`): `NgramDatabase`
    parses the totals file, decodes the index records into the `db_words`
    and `word_indices` dicts, and serves a word's sparse and dense (and
    optionally smoothed) frequency series.  Files are their contents;
    `int()` on a token is the parameter `parseInt`; Python exceptions are
    `PyError` values. */
module NgramDatabase {
  import opened Bytes
  import opened Wrappers
  import opened StoreTypes
  import opened StoreCodec
  import opened Windows
  import opened PyStrings
  import Series

  /** The number of years of a dense series (`509 * [ 0 ]`). */
  const NUM_YEARS: nat := 509

  /** `NgramTotalCountsEntry`: a year and its corpus totals, as floats. */
  datatype TotalCountsEntry = TotalCountsEntry(year: int, matchCount: real, pageCount: real, volumeCount: real)

  /** `NgramWord`: a word and the fields of its index record it keeps. */
  datatype NgramWord = NgramWord(word: seq<byte>, timeOffset: nat, timeLength: nat,
                                 totalMatchCount: nat, totalVolumeCount: nat)

  function WordEntry(word: seq<byte>, e: DbEntry): NgramWord
  {
    NgramWord(word, e.timeOffset, e.timeLength, e.totalMatchCount, e.totalVolumeCount)
  }

  // ---------------------------------------------------------------- totals

  /** `map(int, fields)`: every field parsed, or `None` when one is not an
      integer (`ValueError`). */
  function ParseInts(fields: seq<seq<char>>, parseInt: seq<char> -> Option<int>): (r: Option<seq<int>>)
    ensures r.Some? ==> |r.value| == |fields| && forall k :: 0 <= k < |fields| ==> parseInt(fields[k]) == Some(r.value[k])
    ensures r.None? ==> exists k :: 0 <= k < |fields| && parseInt(fields[k]).None?
  {
    if fields == [] then Some([])
    else match parseInt(fields[0])
      case None => None
      case Some(v) =>
        match ParseInts(fields[1..], parseInt)
        case None => None
        case Some(rest) => Some([v] + rest)
  }

  /** One non-blank chunk `year,match,page,volume`: `ValueError` when a
      field is not an integer, `IndexError` when there are fewer than four. */
  function ParseRow(chunk: seq<char>, parseInt: seq<char> -> Option<int>): (r: Result<TotalCountsEntry, PyError>)
    ensures r.Success? <==> ParseInts(Split(chunk, ','), parseInt).Some? && |Split(chunk, ',')| >= 4
    ensures r.Success? ==> Some(r.value.year) == parseInt(Split(chunk, ',')[0])
  {
    match ParseInts(Split(chunk, ','), parseInt)
    case None => Failure(ValueError)
    case Some(v) =>
      if |v| < 4 then Failure(IndexError)
      else Success(TotalCountsEntry(v[0], v[1] as real, v[2] as real, v[3] as real))
  }

  /** The inner loop over the tab-separated chunks of one line. */
  function AddRows(m: map<int, TotalCountsEntry>, rows: seq<seq<char>>, parseInt: seq<char> -> Option<int>)
    : Result<map<int, TotalCountsEntry>, PyError>
    decreases |rows|
  {
    if rows == [] then Success(m)
    else
      var row := LStrip(rows[0]);
      if row == [] then AddRows(m, rows[1..], parseInt)
      else match ParseRow(row, parseInt)
        case Failure(e) => Failure(e)
        case Success(c) => AddRows(m[c.year := c], rows[1..], parseInt)
  }

  /** The outer loop over the lines of the totals file. */
  function AddLines(m: map<int, TotalCountsEntry>, lines: seq<seq<char>>, parseInt: seq<char> -> Option<int>)
    : Result<map<int, TotalCountsEntry>, PyError>
    decreases |lines|
  {
    if lines == [] then Success(m)
    else match AddRows(m, Split(lines[0], '\t'), parseInt)
      case Failure(e) => Failure(e)
      case Success(m') => AddLines(m', lines[1..], parseInt)
  }

  /** Every entry is stored under its own year. */
  ghost predicate KeyedByYear(m: map<int, TotalCountsEntry>)
  {
    forall y <- m :: m[y].year == y
  }

  /** A non-blank chunk that parses. */
  ghost predicate Stored(m: map<int, TotalCountsEntry>, row: seq<char>, parseInt: seq<char> -> Option<int>)
  {
    LStrip(row) != [] ==> ParseRow(LStrip(row), parseInt).Success? && ParseRow(LStrip(row), parseInt).value.year in m
  }

  /** Every chunk of a line is stored. */
  ghost predicate RowsStored(m: map<int, TotalCountsEntry>, rows: seq<seq<char>>, parseInt: seq<char> -> Option<int>)
  {
    forall row <- rows :: Stored(m, row, parseInt)
  }

  /** Every chunk of a line of the totals file is stored. */
  ghost predicate LineStored(m: map<int, TotalCountsEntry>, line: seq<char>, parseInt: seq<char> -> Option<int>)
  {
    RowsStored(m, Split(line, '\t'), parseInt)
  }

  /** Every chunk of every line is stored. */
  ghost predicate LinesStored(m: map<int, TotalCountsEntry>, lines: seq<seq<char>>, parseInt: seq<char> -> Option<int>)
  {
    forall k :: 0 <= k < |lines| ==> LineStored(m, lines[k], parseInt)
  }

  /** A property of the head and of every element of the tail holds of
      every element. */
  lemma ConsAll<T>(xs: seq<T>, p: T -> bool)
    requires xs != [] && p(xs[0]) && forall k :: 0 <= k < |xs[1..]| ==> p(xs[1..][k])
    ensures forall k :: 0 <= k < |xs| ==> p(xs[k])
  {
    forall k | 0 < k < |xs|
      ensures p(xs[k])
    {
      assert xs[k] == xs[1..][k - 1];
    }
  }

  /** When a line's chunks load, every entry stays keyed by its year, no
      year is lost, and every non-blank chunk parsed and has its year in
      the table. */
  lemma {:induction false} AddRowsMeaning(m: map<int, TotalCountsEntry>, rows: seq<seq<char>>,
                                          parseInt: seq<char> -> Option<int>)
    requires KeyedByYear(m) && AddRows(m, rows, parseInt).Success?
    ensures KeyedByYear(AddRows(m, rows, parseInt).value)
    ensures m.Keys <= AddRows(m, rows, parseInt).value.Keys
    ensures RowsStored(AddRows(m, rows, parseInt).value, rows, parseInt)
    decreases |rows|
  {
    if rows != [] {
      var row := LStrip(rows[0]);
      var m' := if row == [] then m else m[ParseRow(row, parseInt).value.year := ParseRow(row, parseInt).value];
      AddRowsMeaning(m', rows[1..], parseInt);
      assert forall r <- rows :: r == rows[0] || r in rows[1..];
    }
  }

  /** When the totals file loads, every entry is keyed by its year and every
      non-blank chunk of every line parsed and has its year in the table. */
  lemma {:induction false} AddLinesMeaning(m: map<int, TotalCountsEntry>, lines: seq<seq<char>>,
                                           parseInt: seq<char> -> Option<int>)
    requires KeyedByYear(m) && AddLines(m, lines, parseInt).Success?
    ensures KeyedByYear(AddLines(m, lines, parseInt).value)
    ensures m.Keys <= AddLines(m, lines, parseInt).value.Keys
    ensures LinesStored(AddLines(m, lines, parseInt).value, lines, parseInt)
    decreases |lines|
  {
    if lines != [] {
      var rows := Split(lines[0], '\t');
      var m' := AddRows(m, rows, parseInt).value;
      var final := AddLines(m', lines[1..], parseInt).value;
      assert AddLines(m, lines, parseInt).value == final;
      AddRowsMeaning(m, rows, parseInt);
      AddLinesMeaning(m', lines[1..], parseInt);
      StoredGrows(m', final, rows, parseInt);
      ConsAll(lines, l => LineStored(final, l, parseInt));
    }
  }

  lemma StoredGrows(m: map<int, TotalCountsEntry>, m': map<int, TotalCountsEntry>, rows: seq<seq<char>>,
                    parseInt: seq<char> -> Option<int>)
    requires m.Keys <= m'.Keys && RowsStored(m, rows, parseInt)
    ensures RowsStored(m', rows, parseInt)
  {
  }

  // ----------------------------------------------------------------- index

  /** `words_file.seek(offset); words_file.read(length)`: the bytes of the
      range that exist (a read past the end is short, not an error). */
  function ReadWord(wordsFile: seq<byte>, e: DbEntry): (w: seq<byte>)
    ensures |w| <= e.wordLength
    ensures e.wordOffset + e.wordLength <= |wordsFile| ==> w == wordsFile[e.wordOffset..e.wordOffset + e.wordLength]
  {
    var lo := Min(e.wordOffset, |wordsFile|);
    var hi := Min(e.wordOffset + e.wordLength, |wordsFile|);
    wordsFile[lo..hi]
  }

  /** The whole 32-byte records of the index file, decoded, in order (a
      partial record at the end is not one). */
  function Records(mainFile: seq<byte>): (r: seq<DbEntry>)
    ensures |r| * DB_ENTRY_SIZE <= |mainFile| < |r| * DB_ENTRY_SIZE + DB_ENTRY_SIZE
    decreases |mainFile|
  {
    if |mainFile| < DB_ENTRY_SIZE then []
    else [DecodeDbEntry(mainFile[..DB_ENTRY_SIZE])] + Records(mainFile[DB_ENTRY_SIZE..])
  }

  /** Record k is the decoding of bytes [32k, 32k + 32) of the file. */
  lemma {:induction false} RecordsMeaning(mainFile: seq<byte>, k: nat)
    requires (k + 1) * DB_ENTRY_SIZE <= |mainFile|
    ensures k < |Records(mainFile)|
    ensures Records(mainFile)[k] == DecodeDbEntry(mainFile[k * DB_ENTRY_SIZE..(k + 1) * DB_ENTRY_SIZE])
    decreases k
  {
    if k > 0 {
      var rest := mainFile[DB_ENTRY_SIZE..];
      var lo := k * DB_ENTRY_SIZE;
      assert (k - 1) * DB_ENTRY_SIZE == lo - DB_ENTRY_SIZE && (k + 1) * DB_ENTRY_SIZE == lo + DB_ENTRY_SIZE;
      RecordsMeaning(rest, k - 1);
      SliceOfSuffix(mainFile, DB_ENTRY_SIZE, lo - DB_ENTRY_SIZE, lo);
    }
  }

  lemma SliceOfSuffix<T>(s: seq<T>, d: nat, a: nat, b: nat)
    requires a <= b && d + b <= |s|
    ensures s[d..][a..b] == s[d + a..d + b]
  {
  }

  /** Decoding the record at `pos` moves it from the rest of the file to
      the records already read. */
  lemma RecordsStep(mainFile: seq<byte>, pos: nat, consumed: seq<DbEntry>)
    requires pos + DB_ENTRY_SIZE <= |mainFile|
    ensures consumed + Records(mainFile[pos..])
            == (consumed + [DecodeDbEntry(mainFile[pos..pos + DB_ENTRY_SIZE])]) + Records(mainFile[pos + DB_ENTRY_SIZE..])
  {
    assert mainFile[pos..][..DB_ENTRY_SIZE] == mainFile[pos..pos + DB_ENTRY_SIZE];
    assert mainFile[pos..][DB_ENTRY_SIZE..] == mainFile[pos + DB_ENTRY_SIZE..];
  }

  lemma NextRecord(pos: nat)
    requires pos % DB_ENTRY_SIZE == 0
    ensures (pos + DB_ENTRY_SIZE) % DB_ENTRY_SIZE == 0
  {
    var q := pos / DB_ENTRY_SIZE;
    assert pos + DB_ENTRY_SIZE == (q + 1) * DB_ENTRY_SIZE;
  }

  /** The two dicts the index loop fills. */
  datatype Index = Index(dbWords: map<seq<byte>, NgramWord>, wordIndices: map<seq<byte>, nat>)

  /** The dicts after the given records, from empty ones. */
  function IndexOfRecords(entries: seq<DbEntry>, wordsFile: seq<byte>): Index
  {
    if entries == [] then Index(map[], map[])
    else
      var n := |entries| - 1;
      var prev := IndexOfRecords(entries[..n], wordsFile);
      var w := ReadWord(wordsFile, entries[n]);
      Index(prev.dbWords[w := WordEntry(w, entries[n])], prev.wordIndices[w := n])
  }

  /** The index loop: it fails with `struct.error` when the file ends in a
      partial record. */
  function LoadIndexOf(mainFile: seq<byte>, wordsFile: seq<byte>): Result<Index, PyError>
  {
    if |mainFile| % DB_ENTRY_SIZE != 0 then Failure(StructError)
    else Success(IndexOfRecords(Records(mainFile), wordsFile))
  }

  /** The entry of w in both dicts: the last record with that word, and
      the `NgramWord` built from it. */
  ghost predicate IndexEntry(entries: seq<DbEntry>, wordsFile: seq<byte>, ix: Index, w: seq<byte>)
  {
    && w in ix.wordIndices && w in ix.dbWords
    && ix.wordIndices[w] < |entries|
    && ReadWord(wordsFile, entries[ix.wordIndices[w]]) == w
    && ix.dbWords[w] == WordEntry(w, entries[ix.wordIndices[w]])
    && forall k :: ix.wordIndices[w] < k < |entries| ==> ReadWord(wordsFile, entries[k]) != w
  }

  /** Both dicts hold exactly the words of the records; each word's index is
      the last record with that word (a later duplicate overwrites an
      earlier one), and its `NgramWord` is built from that record. */
  ghost predicate IndexMeaning(entries: seq<DbEntry>, wordsFile: seq<byte>, ix: Index)
  {
    && ix.dbWords.Keys == ix.wordIndices.Keys
    && (forall k :: 0 <= k < |entries| ==> ReadWord(wordsFile, entries[k]) in ix.wordIndices)
    && forall w <- ix.wordIndices :: IndexEntry(entries, wordsFile, ix, w)
  }

  lemma {:induction false} IndexOfRecordsMeaning(entries: seq<DbEntry>, wordsFile: seq<byte>)
    ensures IndexMeaning(entries, wordsFile, IndexOfRecords(entries, wordsFile))
    decreases |entries|
  {
    if entries != [] {
      var n := |entries| - 1;
      var prefix := entries[..n];
      IndexOfRecordsMeaning(prefix, wordsFile);
      assert prefix + [entries[n]] == entries;
      IndexStep(prefix, entries[n], wordsFile, IndexOfRecords(prefix, wordsFile), entries, IndexOfRecords(entries, wordsFile));
    }
  }

  lemma IndexOfRecordsAppend(entries: seq<DbEntry>, e: DbEntry, wordsFile: seq<byte>)
    ensures var prev := IndexOfRecords(entries, wordsFile);
            var w := ReadWord(wordsFile, e);
            IndexOfRecords(entries + [e], wordsFile) == Index(prev.dbWords[w := WordEntry(w, e)], prev.wordIndices[w := |entries|])
  {
    assert (entries + [e])[..|entries|] == entries;
  }

  /** Adding one record keeps the meaning of the dicts. */
  lemma IndexStep(entries: seq<DbEntry>, e: DbEntry, wordsFile: seq<byte>, ix: Index, es: seq<DbEntry>, ix': Index)
    requires IndexMeaning(entries, wordsFile, ix) && es == entries + [e]
    requires var w := ReadWord(wordsFile, e);
             ix' == Index(ix.dbWords[w := WordEntry(w, e)], ix.wordIndices[w := |entries|])
    ensures IndexMeaning(es, wordsFile, ix')
  {
    var w := ReadWord(wordsFile, e);
    forall k | 0 <= k < |es|
      ensures ReadWord(wordsFile, es[k]) in ix'.wordIndices
    {
      if k < |entries| {
        assert es[k] == entries[k];
      }
    }
    forall v <- ix'.wordIndices
      ensures IndexEntry(es, wordsFile, ix', v)
    {
      if v != w {
        assert IndexEntry(entries, wordsFile, ix, v);
        IndexEntryKept(entries, e, wordsFile, ix, es, ix', v);
      }
    }
  }

  /** The entry of a word other than the new record's is unchanged. */
  lemma IndexEntryKept(entries: seq<DbEntry>, e: DbEntry, wordsFile: seq<byte>, ix: Index, es: seq<DbEntry>, ix': Index, v: seq<byte>)
    requires IndexEntry(entries, wordsFile, ix, v) && es == entries + [e]
    requires v != ReadWord(wordsFile, e)
    requires ix'.wordIndices == ix.wordIndices[ReadWord(wordsFile, e) := |entries|]
    requires ix'.dbWords == ix.dbWords[ReadWord(wordsFile, e) := WordEntry(ReadWord(wordsFile, e), e)]
    ensures IndexEntry(es, wordsFile, ix', v)
  {
    var i := ix.wordIndices[v];
    assert es[i] == entries[i];
    forall k | i < k < |es|
      ensures ReadWord(wordsFile, es[k]) != v
    {
      if k < |entries| {
        assert es[k] == entries[k];
      }
    }
  }

  /** The state of the index loop at byte `pos`: the records before it
      have been consumed into the dicts. */
  ghost predicate Scanned(mainFile: seq<byte>, wordsFile: seq<byte>, pos: nat, consumed: seq<DbEntry>, ix: Index)
  {
    && pos <= |mainFile| && pos % DB_ENTRY_SIZE == 0
    && Records(mainFile) == consumed + Records(mainFile[pos..])
    && ix == IndexOfRecords(consumed, wordsFile)
  }

  /** The index loop on the dicts as values. */
  method ReadIndex(mainFile: seq<byte>, wordsFile: seq<byte>) returns (ix: Index, err: Option<PyError>)
    ensures ix == IndexOfRecords(Records(mainFile), wordsFile)
    ensures err == None <==> LoadIndexOf(mainFile, wordsFile).Success?
    ensures err != None ==> err == Some(StructError)
  {
    ix := Index(map[], map[]);
    var index, pos := 0, 0;
    ghost var consumed: seq<DbEntry> := [];
    assert mainFile[0..] == mainFile;
    while pos < |mainFile|
      invariant index == |consumed| && Scanned(mainFile, wordsFile, pos, consumed, ix)
      decreases |mainFile| - pos
    {
      if pos + DB_ENTRY_SIZE > |mainFile| {
        RecordsEnd(mainFile, wordsFile, pos, consumed, ix);
        return ix, Some(StructError);
      }
      ix, consumed := IndexRecord(mainFile, wordsFile, pos, consumed, ix, index);
      index, pos := index + 1, pos + DB_ENTRY_SIZE;
    }
    RecordsEnd(mainFile, wordsFile, pos, consumed, ix);
    return ix, None;
  }

  /** One pass of the index loop: the record at `pos` enters both dicts. */
  method IndexRecord(mainFile: seq<byte>, wordsFile: seq<byte>, pos: nat, ghost consumed: seq<DbEntry>, ix: Index, index: nat)
    returns (ix': Index, ghost consumed': seq<DbEntry>)
    requires pos + DB_ENTRY_SIZE <= |mainFile| && index == |consumed|
    requires Scanned(mainFile, wordsFile, pos, consumed, ix)
    ensures |consumed'| == index + 1 && Scanned(mainFile, wordsFile, pos + DB_ENTRY_SIZE, consumed', ix')
  {
    var entry := DecodeDbEntry(mainFile[pos..pos + DB_ENTRY_SIZE]);
    RecordsStep(mainFile, pos, consumed);
    NextRecord(pos);
    var word := ReadWord(wordsFile, entry);
    IndexOfRecordsAppend(consumed, entry, wordsFile);
    ix' := Index(ix.dbWords[word := WordEntry(word, entry)], ix.wordIndices[word := index]);
    consumed' := consumed + [entry];
  }

  /** Fewer than 32 bytes left: the records consumed are all of them, and
      the file is whole exactly when none are left. */
  lemma RecordsEnd(mainFile: seq<byte>, wordsFile: seq<byte>, pos: nat, consumed: seq<DbEntry>, ix: Index)
    requires |mainFile| < pos + DB_ENTRY_SIZE && Scanned(mainFile, wordsFile, pos, consumed, ix)
    ensures ix == IndexOfRecords(Records(mainFile), wordsFile)
    ensures LoadIndexOf(mainFile, wordsFile).Success? <==> pos == |mainFile|
  {
    assert Records(mainFile[pos..]) == [];
    assert consumed + [] == consumed;
    if pos < |mainFile| {
      PartialRecord(|mainFile|, pos);
    }
  }

  /** A file that ends inside a record is not a whole number of records. */
  lemma PartialRecord(len: nat, pos: nat)
    requires pos % DB_ENTRY_SIZE == 0 && pos < len < pos + DB_ENTRY_SIZE
    ensures len % DB_ENTRY_SIZE != 0
  {
    var q, r := len / DB_ENTRY_SIZE, len % DB_ENTRY_SIZE;
    var p := pos / DB_ENTRY_SIZE;
    assert len == q * DB_ENTRY_SIZE + r && pos == p * DB_ENTRY_SIZE;
    assert p <= q;
    assert q <= p;
  }

  // ---------------------------------------------------------------- series

  /** The `time_length` rows at byte `offset` of the time file, each as
      `(year, match_count / total_counts[year].match_count)`. */
  function RowsFrom(totals: map<int, TotalCountsEntry>, timeFile: seq<byte>, offset: nat, n: nat)
    : (r: Result<seq<(nat, real)>, PyError>)
    ensures r.Success? ==> |r.value| == n
    decreases n
  {
    if n == 0 then Success([])
    else if offset + TIME_ENTRY_SIZE > |timeFile| then Failure(StructError)
    else
      var t := DecodeTimeEntry(timeFile[offset..offset + TIME_ENTRY_SIZE]);
      if t.year !in totals then Failure(KeyError)
      else if totals[t.year].matchCount == 0.0 then Failure(ZeroDivisionError)
      else match RowsFrom(totals, timeFile, offset + TIME_ENTRY_SIZE, n - 1)
        case Failure(e) => Failure(e)
        case Success(rest) => Success([(t.year, t.matchCount as real / totals[t.year].matchCount)] + rest)
  }

  /** Row k of a word's table. */
  function TimeRowAt(timeFile: seq<byte>, offset: nat, k: nat): TimeEntry
    requires offset + (k + 1) * TIME_ENTRY_SIZE <= |timeFile|
  {
    DecodeTimeEntry(timeFile[offset + k * TIME_ENTRY_SIZE..offset + (k + 1) * TIME_ENTRY_SIZE])
  }

  /** A successful read gives, for each row of the table in order, its year
      and its match count relative to that year's total. */
  lemma {:induction false} RowsFromMeaning(totals: map<int, TotalCountsEntry>, timeFile: seq<byte>, offset: nat, n: nat)
    requires RowsFrom(totals, timeFile, offset, n).Success?
    ensures n > 0 ==> offset + n * TIME_ENTRY_SIZE <= |timeFile|
    ensures forall k :: 0 <= k < n ==>
              var t := TimeRowAt(timeFile, offset, k);
              t.year in totals && totals[t.year].matchCount != 0.0
              && RowsFrom(totals, timeFile, offset, n).value[k] == (t.year, t.matchCount as real / totals[t.year].matchCount)
    decreases n
  {
    if n > 0 {
      RowsFromMeaning(totals, timeFile, offset + TIME_ENTRY_SIZE, n - 1);
      assert offset + TIME_ENTRY_SIZE + (n - 1) * TIME_ENTRY_SIZE == offset + n * TIME_ENTRY_SIZE;
      assert offset + TIME_ENTRY_SIZE <= |timeFile|;
      forall k | 1 <= k < n
        ensures TimeRowAt(timeFile, offset, k) == TimeRowAt(timeFile, offset + TIME_ENTRY_SIZE, k - 1)
      {
        assert offset + k * TIME_ENTRY_SIZE == offset + TIME_ENTRY_SIZE + (k - 1) * TIME_ENTRY_SIZE;
      }
    }
  }

  /** `get_sparse_series(word)`: `[]` for an unknown word. */
  function SparseSeries(dbWords: map<seq<byte>, NgramWord>, totals: map<int, TotalCountsEntry>,
                        timeFile: seq<byte>, word: seq<byte>): (r: Result<seq<(nat, real)>, PyError>)
    ensures word !in dbWords ==> r == Success([])
    ensures word in dbWords && r.Success? ==> |r.value| == dbWords[word].timeLength
  {
    if word !in dbWords then Success([])
    else RowsFrom(totals, timeFile, dbWords[word].timeOffset, dbWords[word].timeLength)
  }

  /** `series[year - 1500] = count` for the first k pairs, from zeros. */
  function DenseAfter(sparse: seq<(nat, real)>, k: nat): (r: Result<seq<real>, PyError>)
    requires k <= |sparse|
    ensures r.Success? ==> |r.value| == NUM_YEARS
  {
    if k == 0 then Success(seq(NUM_YEARS, _ => 0.0))
    else match DenseAfter(sparse, k - 1)
      case Failure(e) => Failure(e)
      case Success(s) =>
        match PyIndex(sparse[k - 1].0 - MIN_YEAR, NUM_YEARS)
        case None => Failure(IndexError)
        case Some(i) => Success(s[i := sparse[k - 1].1])
  }

  /** The count of the last pair for `year` among the first k, if any. */
  function LastCount(sparse: seq<(nat, real)>, k: nat, year: nat): Option<real>
    requires k <= |sparse|
  {
    if k == 0 then None
    else if sparse[k - 1].0 == year then Some(sparse[k - 1].1)
    else LastCount(sparse, k - 1, year)
  }

  /** When every year lies in [1500, 1500 + 509) the dense series holds, at
      each position, the last count given for that year, and 0 where none
      was. */
  lemma {:induction false} DenseMeaning(sparse: seq<(nat, real)>, k: nat)
    requires k <= |sparse| && forall i :: 0 <= i < |sparse| ==> MIN_YEAR <= sparse[i].0 < MIN_YEAR + NUM_YEARS
    ensures DenseAfter(sparse, k).Success?
    ensures forall p :: 0 <= p < NUM_YEARS ==>
              DenseAfter(sparse, k).value[p] == match LastCount(sparse, k, MIN_YEAR + p) case None => 0.0 case Some(c) => c
  {
    if k > 0 {
      DenseMeaning(sparse, k - 1);
    }
  }

  /** `smoothing_sum` after the first i steps of the smoothing loop: the
      entering value added, the leaving one subtracted, a negative sum reset
      to 0 at every step. */
  function SmoothSum(s: seq<real>, w: nat, i: nat): (r: real)
    requires i <= |s| + w
    ensures i > 0 ==> r >= 0.0
  {
    if i == 0 then 0.0
    else
      var j := i - 1;
      var sum := SmoothSum(s, w, j) + (if j < |s| then s[j] else 0.0) - (if j > 2 * w then s[j - 2 * w - 1] else 0.0);
      if sum < 0.0 then 0.0 else sum
  }

  /** From step w on the window holds at least one value. */
  lemma WindowNonEmpty(n: nat, w: nat, i: nat)
    requires w < i <= n + w
    ensures Series.WindowCount(n, w, i) >= 1
  {
  }

  /** `smooth_series` after the first i steps: one mean per step from step w
      on. */
  function SmoothOutputs(s: seq<real>, w: nat, i: nat): (r: seq<real>)
    requires i <= |s| + w
    ensures |r| == if i <= w then 0 else i - w
    ensures forall p :: 0 <= p < |r| ==> r[p] == SmoothSum(s, w, p + w + 1) / Series.WindowCount(|s|, w, p + w + 1) as real
  {
    if i == 0 then []
    else if i - 1 >= w then
      WindowNonEmpty(|s|, w, i);
      SmoothOutputs(s, w, i - 1) + [SmoothSum(s, w, i) / Series.WindowCount(|s|, w, i) as real]
    else SmoothOutputs(s, w, i - 1)
  }

  /** For a series without negative values the running sum is the sum of
      the window, cut at both ends of the series. */
  lemma {:induction false} SmoothSumIsWindowSum(s: seq<real>, w: nat, i: nat)
    requires i <= |s| + w && forall k :: 0 <= k < |s| ==> s[k] >= 0.0
    ensures SmoothSum(s, w, i) == SumRange(s, Max(0, i - (2 * w + 1)), Min(i, |s|))
  {
    if i > 0 {
      var j := i - 1;
      SmoothSumIsWindowSum(s, w, j);
      var lo, hi := Max(0, j - (2 * w + 1)), Min(j, |s|);
      var hi' := Min(i, |s|);
      var lo' := Max(0, i - (2 * w + 1));
      assert SumRange(s, lo, hi) + (if j < |s| then s[j] else 0.0) == SumRange(s, lo, hi');
      if j > 2 * w {
        SumRangeDropFirst(s, lo, hi');
      }
      SumRangeNonNegative(s, lo', hi');
    }
  }

  /** The smoothed series has one value per year, and for a series without
      negative values each is the mean of the values within w of it, edge
      windows dividing by the number of values they actually hold. */
  lemma SmoothedMeans(s: seq<real>, w: nat, p: nat)
    requires p < |s| && forall k :: 0 <= k < |s| ==> s[k] >= 0.0
    ensures |SmoothOutputs(s, w, |s| + w)| == |s|
    ensures SmoothOutputs(s, w, |s| + w)[p]
            == SumRange(s, Max(0, p - w), Min(|s|, p + w + 1)) / (Min(|s|, p + w + 1) - Max(0, p - w)) as real
  {
    SmoothSumIsWindowSum(s, w, p + w + 1);
  }

  /** What the smoothing loop gives for any window w.  For w >= 0 it is the
      list of means.  For w < 0 the loop runs `len(series) + w` times, and
      no time when that is not positive, giving [].  Otherwise its first
      step adds and removes one value, so when the value
      `series[-2w - 1]` exists `window_size` is 0 at the division
      (`ZeroDivisionError`), and when it does not the subtraction raises
      `IndexError` first. */
  function Smoothed(s: seq<real>, w: int): Result<seq<real>, PyError>
  {
    if w >= 0 then Success(SmoothOutputs(s, w, |s| + w))
    else if |s| + w <= 0 then Success([])
    else if -2 * w - 1 >= |s| then Failure(IndexError)
    else Failure(ZeroDivisionError)
  }

  /** On the 509-year series: a window in [-254, -1] raises
      `ZeroDivisionError`, one in [-508, -255] raises `IndexError`, one
      of -509 or less gives the empty list, and a non-negative one gives
      one mean per year. */
  lemma SmoothedWindows(s: seq<real>, w: int)
    requires |s| == NUM_YEARS
    ensures -254 <= w <= -1 ==> Smoothed(s, w) == Failure(ZeroDivisionError)
    ensures -508 <= w <= -255 ==> Smoothed(s, w) == Failure(IndexError)
    ensures w <= -509 ==> Smoothed(s, w) == Success([])
    ensures w >= 0 ==> Smoothed(s, w).Success? && |Smoothed(s, w).value| == NUM_YEARS
  {
  }

  /** `get_time_series(word, smoothing_window)`: a window of 0 leaves the
      dense series as it is, any other is smoothed. */
  function TimeSeries(dbWords: map<seq<byte>, NgramWord>, totals: map<int, TotalCountsEntry>,
                      timeFile: seq<byte>, word: seq<byte>, w: int): Result<seq<real>, PyError>
  {
    match SparseSeries(dbWords, totals, timeFile, word)
    case Failure(e) => Failure(e)
    case Success(sparse) =>
      match DenseAfter(sparse, |sparse|)
      case Failure(e) => Failure(e)
      case Success(series) => if w == 0 then Success(series) else Smoothed(series, w)
  }

  /** An unknown word gives 509 zeros (smoothed or not). */
  lemma UnknownWordIsZero(dbWords: map<seq<byte>, NgramWord>, totals: map<int, TotalCountsEntry>,
                          timeFile: seq<byte>, word: seq<byte>)
    requires word !in dbWords
    ensures TimeSeries(dbWords, totals, timeFile, word, 0) == Success(seq(NUM_YEARS, _ => 0.0))
  {
  }

  /** The smoothing loop of `get_time_series`, for a window of either sign. */
  method Smooth(series: seq<real>, w: int) returns (r: Result<seq<real>, PyError>)
    ensures r == Smoothed(series, w)
  {
    var smooth := [];
    var smoothingSum := 0.0;
    var windowSize := 0;
    var i := 0;
    while i < |series| + w
      invariant 0 <= i && (w >= 0 ==> i <= |series| + w)
      invariant w >= 0 ==> smoothingSum == SmoothSum(series, w, i)
      invariant w >= 0 ==> windowSize == Series.WindowCount(|series|, w, i)
      invariant w >= 0 ==> smooth == SmoothOutputs(series, w, i)
      invariant w < 0 ==> i == 0 && smoothingSum == 0.0 && windowSize == 0 && smooth == []
      decreases |series| + w - i
    {
      if i < |series| {
        smoothingSum := smoothingSum + series[i];
        windowSize := windowSize + 1;
      }
      if i > 2 * w {
        var j := i - 2 * w - 1;
        if j >= |series| {
          return Failure(IndexError);
        }
        smoothingSum := smoothingSum - series[j];
        windowSize := windowSize - 1;
      }
      if smoothingSum < 0.0 {
        smoothingSum := 0.0;
      }
      if i >= w {
        if windowSize == 0 {
          return Failure(ZeroDivisionError);
        }
        smooth := smooth + [smoothingSum / windowSize as real];
      }
      i := i + 1;
    }
    r := Success(smooth);
  }

  /** `NgramDatabase`: the three dicts of the reader and the time file. */
  class Database {
    var totalCounts: map<int, TotalCountsEntry>
    var dbWords: map<seq<byte>, NgramWord>
    var wordIndices: map<seq<byte>, nat>
    var timeFile: seq<byte>

    /** The start of `__init__`: empty dicts. */
    constructor ()
      ensures totalCounts == map[] && dbWords == map[] && wordIndices == map[] && timeFile == []
    {
      totalCounts, dbWords, wordIndices, timeFile := map[], map[], map[], [];
    }

    /** The totals loop of `__init__`. */
    method LoadTotals(lines: seq<seq<char>>, parseInt: seq<char> -> Option<int>) returns (err: Option<PyError>)
      modifies this`totalCounts
      ensures AddLines(old(totalCounts), lines, parseInt).Success? ==>
                err == None && totalCounts == AddLines(old(totalCounts), lines, parseInt).value
      ensures AddLines(old(totalCounts), lines, parseInt).Failure? ==>
                err == Some(AddLines(old(totalCounts), lines, parseInt).error)
    {
      var i := 0;
      while i < |lines|
        invariant 0 <= i <= |lines|
        invariant AddLines(old(totalCounts), lines, parseInt) == AddLines(totalCounts, lines[i..], parseInt)
      {
        assert lines[i..][1..] == lines[i + 1..];
        err := LoadLine(Split(lines[i], '\t'), parseInt);
        if err.Some? {
          return;
        }
        i := i + 1;
      }
      return None;
    }

    /** The loop over the tab-separated chunks of one line of the totals
        file: each non-blank chunk, stripped, is parsed and stored under its
        year. */
    method LoadLine(rows: seq<seq<char>>, parseInt: seq<char> -> Option<int>) returns (err: Option<PyError>)
      modifies this`totalCounts
      ensures AddRows(old(totalCounts), rows, parseInt).Success? ==>
                err == None && totalCounts == AddRows(old(totalCounts), rows, parseInt).value
      ensures AddRows(old(totalCounts), rows, parseInt).Failure? ==>
                err == Some(AddRows(old(totalCounts), rows, parseInt).error)
    {
      var j := 0;
      while j < |rows|
        invariant 0 <= j <= |rows|
        invariant AddRows(old(totalCounts), rows, parseInt) == AddRows(totalCounts, rows[j..], parseInt)
      {
        assert rows[j..][1..] == rows[j + 1..];
        var row := LStrip(rows[j]);
        if row != [] {
          var entry := ParseRow(row, parseInt);
          if entry.Failure? {
            return Some(entry.error);
          }
          totalCounts := totalCounts[entry.value.year := entry.value];
        }
        j := j + 1;
      }
      return None;
    }

    /** The index loop of `__init__`, on the empty dicts: 32 bytes at a
        time until the end of the file.  A partial record at the end fails
        with `struct.error` and leaves the dicts as the whole records made
        them. */
    method LoadIndex(mainFile: seq<byte>, wordsFile: seq<byte>) returns (err: Option<PyError>)
      requires dbWords == map[] && wordIndices == map[]
      modifies this`dbWords, this`wordIndices
      ensures Index(dbWords, wordIndices) == IndexOfRecords(Records(mainFile), wordsFile)
      ensures LoadIndexOf(mainFile, wordsFile).Success? ==>
                err == None && Index(dbWords, wordIndices) == LoadIndexOf(mainFile, wordsFile).value
      ensures LoadIndexOf(mainFile, wordsFile).Failure? ==> err == Some(StructError)
    {
      var ix;
      ix, err := ReadIndex(mainFile, wordsFile);
      dbWords, wordIndices := ix.dbWords, ix.wordIndices;
    }

    /** `get_sparse_series(word)`. */
    method GetSparseSeries(word: seq<byte>) returns (r: Result<seq<(nat, real)>, PyError>)
      ensures r == SparseSeries(dbWords, totalCounts, timeFile, word)
    {
      if word !in dbWords {
        return Success([]);
      }
      var e := dbWords[word];
      var entries: seq<(nat, real)> := [];
      var offset := e.timeOffset;
      var k := 0;
      PrependedNil(RowsFrom(totalCounts, timeFile, offset, e.timeLength));
      while k < e.timeLength
        invariant 0 <= k <= e.timeLength && offset == e.timeOffset + k * TIME_ENTRY_SIZE
        invariant RowsFrom(totalCounts, timeFile, e.timeOffset, e.timeLength)
                  == Prepended(entries, RowsFrom(totalCounts, timeFile, offset, e.timeLength - k))
      {
        if offset + TIME_ENTRY_SIZE > |timeFile| {
          assert RowsFrom(totalCounts, timeFile, offset, e.timeLength - k) == Failure(StructError);
          return Failure(StructError);
        }
        var t := DecodeTimeEntry(timeFile[offset..offset + TIME_ENTRY_SIZE]);
        if t.year !in totalCounts {
          assert RowsFrom(totalCounts, timeFile, offset, e.timeLength - k) == Failure(KeyError);
          return Failure(KeyError);
        }
        var allCount := totalCounts[t.year].matchCount;
        if allCount == 0.0 {
          assert RowsFrom(totalCounts, timeFile, offset, e.timeLength - k) == Failure(ZeroDivisionError);
          return Failure(ZeroDivisionError);
        }
        PrependedStep(entries, (t.year, t.matchCount as real / allCount),
                      RowsFrom(totalCounts, timeFile, offset + TIME_ENTRY_SIZE, e.timeLength - k - 1));
        entries := entries + [(t.year, t.matchCount as real / allCount)];
        offset := offset + TIME_ENTRY_SIZE;
        k := k + 1;
      }
      assert entries + [] == entries;
      r := Success(entries);
    }

    /** `get_time_series(word, smoothing_window)`. */
    method GetTimeSeries(word: seq<byte>, w: int) returns (r: Result<seq<real>, PyError>)
      ensures r == TimeSeries(dbWords, totalCounts, timeFile, word, w)
    {
      var sparse := GetSparseSeries(word);
      if sparse.Failure? {
        return Failure(sparse.error);
      }
      var series := seq(NUM_YEARS, _ => 0.0);
      var k := 0;
      while k < |sparse.value|
        invariant 0 <= k <= |sparse.value| && DenseAfter(sparse.value, k) == Success(series)
      {
        var i := PyIndex(sparse.value[k].0 - MIN_YEAR, NUM_YEARS);
        if i.None? {
          assert DenseAfter(sparse.value, k + 1) == Failure(IndexError);
          DenseFails(sparse.value, k + 1);
          return Failure(IndexError);
        }
        series := series[i.value := sparse.value[k].1];
        k := k + 1;
      }
      if w == 0 {
        return Success(series);
      }
      r := Smooth(series, w);
    }
  }

  /** A failed assignment makes the whole fill fail. */
  lemma {:induction false} DenseFails(sparse: seq<(nat, real)>, k: nat)
    requires k <= |sparse| && DenseAfter(sparse, k) == Failure(IndexError)
    ensures DenseAfter(sparse, |sparse|) == Failure(IndexError)
    decreases |sparse| - k
  {
    if k < |sparse| {
      DenseFails(sparse, k + 1);
    }
  }

  function Prepended(h: seq<(nat, real)>, r: Result<seq<(nat, real)>, PyError>): Result<seq<(nat, real)>, PyError>
  {
    match r
    case Failure(e) => Failure(e)
    case Success(rest) => Success(h + rest)
  }

  lemma PrependedNil(r: Result<seq<(nat, real)>, PyError>)
    ensures Prepended([], r) == r
  {
    if r.Success? {
      assert [] + r.value == r.value;
    }
  }

  lemma PrependedStep(h: seq<(nat, real)>, x: (nat, real), r: Result<seq<(nat, real)>, PyError>)
    ensures Prepended(h, Prepended([x], r)) == Prepended(h + [x], r)
  {
    if r.Success? {
      assert h + ([x] + r.value) == (h + [x]) + r.value;
    }
  }

  /** `NgramDatabase(directory, base_filename)`: the totals file as lines,
      the index, word and time files as their bytes. */
  method Open(totalsLines: seq<seq<char>>, parseInt: seq<char> -> Option<int>,
              mainFile: seq<byte>, wordsFile: seq<byte>, timeFile: seq<byte>)
    returns (r: Result<Database, PyError>)
    ensures AddLines(map[], totalsLines, parseInt).Failure? ==> r == Failure(AddLines(map[], totalsLines, parseInt).error)
    ensures AddLines(map[], totalsLines, parseInt).Success? && LoadIndexOf(mainFile, wordsFile).Failure? ==>
              r == Failure(StructError)
    ensures AddLines(map[], totalsLines, parseInt).Success? && LoadIndexOf(mainFile, wordsFile).Success? ==>
              r.Success?
    ensures r.Success? ==>
              && fresh(r.value)
              && AddLines(map[], totalsLines, parseInt) == Success(r.value.totalCounts)
              && LoadIndexOf(mainFile, wordsFile) == Success(Index(r.value.dbWords, r.value.wordIndices))
              && r.value.timeFile == timeFile
  {
    var db := new Database();
    var err := db.LoadTotals(totalsLines, parseInt);
    if err.Some? {
      return Failure(err.value);
    }
    err := db.LoadIndex(mainFile, wordsFile);
    if err.Some? {
      return Failure(err.value);
    }
    db.timeFile := timeFile;
    r := Success(db);
  }
}
