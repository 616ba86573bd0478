/** What the two store sorters (`sorter.c` and `sorter.cpp`) have in common:
    the words tagged with their record positions are put in `strcmp` order
    by `qsort` with `iw_compare`, and the records are then re-emitted in that
    order, each with offsets just past the words and rows emitted before it
    and every other field as read. */
module SortStage {
  import opened Bytes
  import opened Sorting
  import opened StoreTypes
  import opened DictionaryReader

  /** The capacity of the sorters' global `words` array. */
  const MAX_ENTRIES: nat := 0x10_0000

  /** The comparator as `qsort` uses it: a goes before b when
      `iw_compare(a, b) < 0`. */
  predicate IwLess(a: IndexedWord, b: IndexedWord)
  {
    IwCompare(a, b) < 0
  }

  /** `words[i] = {i, word i}` for every record position i. */
  function Indexed(words: seq<seq<byte>>): (r: seq<IndexedWord>)
    ensures |r| == |words|
    ensures forall i :: 0 <= i < |words| ==> r[i] == IndexedWord(i, words[i])
  {
    seq(|words|, i requires 0 <= i < |words| => IndexedWord(i, words[i]))
  }

  /** The tagged words after `qsort`: each element is some record position
      with its own word, and every position occurs. */
  function SortedWords(words: seq<seq<byte>>): (r: seq<IndexedWord>)
    ensures |r| == |words|
    ensures forall k :: 0 <= k < |r| ==> r[k].index < |words| && r[k].word == words[r[k].index]
    ensures forall i :: 0 <= i < |words| ==> IndexedWord(i, words[i]) in r
  {
    var r := Sort(Indexed(words), IwLess);
    assert forall k :: 0 <= k < |r| ==> r[k] in multiset(Indexed(words));
    assert forall i :: 0 <= i < |words| ==> Indexed(words)[i] in multiset(r);
    r
  }

  /** `qsort(words, n, sizeof(*words), iw_compare)` on the tagged words. */
  method QSort(iw: array<IndexedWord>)
    modifies iw
    ensures iw[..] == Sort(old(iw[..]), IwLess)
  {
    var sorted := Sort(iw[..], IwLess);
    forall k | 0 <= k < iw.Length {
      iw[k] := sorted[k];
    }
    assert iw[..] == sorted;
  }

  /** The sorted tags are a permutation of the positions 0 .. n-1: no
      position occurs twice. */
  lemma SortedWordsDistinct(words: seq<seq<byte>>)
    ensures forall j, k :: 0 <= j < k < |words| ==> SortedWords(words)[j].index != SortedWords(words)[k].index
  {
    var ix := Indexed(words);
    assert NoDuplicates(ix);
    SortNoDuplicates(ix, IwLess);
  }

  /** After the sort the words are in non-decreasing `strcmp` order. */
  lemma SortedWordsOrdered(words: seq<seq<byte>>)
    ensures forall j, k :: 0 <= j < k < |words| ==>
              StrCmp(SortedWords(words)[j].word, SortedWords(words)[k].word) <= 0
  {
    var sw := SortedWords(words);
    forall x: IndexedWord, y: IndexedWord | IwLess(x, y)
      ensures !IwLess(y, x)
    {
      IwCompareAntisymmetric(x, y);
    }
    forall x: IndexedWord, y: IndexedWord, z: IndexedWord | !IwLess(y, x) && !IwLess(z, y)
      ensures !IwLess(z, x)
    {
      IwCompareAntisymmetric(x, y);
      IwCompareAntisymmetric(y, z);
      IwCompareAntisymmetric(x, z);
      StrCmpTransitive(x.word, y.word, z.word);
    }
    SortLocallySorted(Indexed(words), IwLess);
    LocallySortedIsSorted(sw, IwLess);
    forall j, k | 0 <= j < k < |words|
      ensures StrCmp(sw[j].word, sw[k].word) <= 0
    {
      IwCompareAntisymmetric(sw[j], sw[k]);
    }
  }

  function WordsOf(sw: seq<IndexedWord>): (r: seq<seq<byte>>)
    ensures |r| == |sw|
    ensures forall k :: 0 <= k < |sw| ==> r[k] == sw[k].word
  {
    seq(|sw|, k requires 0 <= k < |sw| => sw[k].word)
  }

  /** The output record for a re-emitted entry: the input record with the
      two offsets replaced. */
  function Relocated(e: DbEntry, wordOffset: nat, timeOffset: nat): DbEntry
  {
    e.(wordOffset := wordOffset, timeOffset := timeOffset)
  }

  /** Every field except the two offsets is carried over. */
  predicate SameExceptOffsets(a: DbEntry, b: DbEntry)
  {
    a.wordLength == b.wordLength && a.timeLength == b.timeLength
    && a.totalMatchCount == b.totalMatchCount && a.totalVolumeCount == b.totalVolumeCount
  }

  /** The three output streams hold the first `|mainOut|` tagged words'
      records, words and rows (`tabs`), in order: the last record is its input
      record with offsets just past the data before it, its word and rows end
      the other two streams, and the same holds of what comes before. */
  ghost predicate Emitted(mainOut: seq<DbEntry>, wordOut: seq<byte>, timeOut: seq<TimeEntry>,
                          sw: seq<IndexedWord>, db: seq<DbEntry>, tabs: seq<seq<TimeEntry>>)
  {
    && |mainOut| == |tabs| && |mainOut| <= |sw|
    && if |mainOut| == 0 then wordOut == [] && timeOut == []
       else
         var k := |mainOut| - 1;
         var w, t := sw[k].word, tabs[k];
         && sw[k].index < |db|
         && |w| <= |wordOut| && |t| <= |timeOut|
         && wordOut[|wordOut| - |w|..] == w && timeOut[|timeOut| - |t|..] == t
         && mainOut[k] == Relocated(db[sw[k].index], (|wordOut| - |w|) % U32,
                                    (TIME_ENTRY_SIZE * (|timeOut| - |t|)) % U32)
         && Emitted(mainOut[..k], wordOut[..|wordOut| - |w|], timeOut[..|timeOut| - |t|],
                    sw, db, tabs[..k])
  }

  /** Each output record is its tagged word's input record except for the
      offsets. */
  lemma {:induction false} EmittedFields(mainOut: seq<DbEntry>, wordOut: seq<byte>, timeOut: seq<TimeEntry>,
                                         sw: seq<IndexedWord>, db: seq<DbEntry>, tabs: seq<seq<TimeEntry>>)
    requires Emitted(mainOut, wordOut, timeOut, sw, db, tabs)
    ensures |mainOut| == |tabs| <= |sw|
    ensures forall k :: 0 <= k < |mainOut| ==>
              sw[k].index < |db| && SameExceptOffsets(mainOut[k], db[sw[k].index])
  {
    if |mainOut| > 0 {
      var k := |mainOut| - 1;
      var w, t := sw[k].word, tabs[k];
      EmittedFields(mainOut[..k], wordOut[..|wordOut| - |w|], timeOut[..|timeOut| - |t|], sw, db, tabs[..k]);
      assert forall j :: 0 <= j < k ==> mainOut[..k][j] == mainOut[j];
    }
  }

  /** The word stream is the tagged words end to end, the time stream the
      tables end to end. */
  lemma {:induction false} EmittedStreams(mainOut: seq<DbEntry>, wordOut: seq<byte>, timeOut: seq<TimeEntry>,
                                          sw: seq<IndexedWord>, db: seq<DbEntry>, tabs: seq<seq<TimeEntry>>)
    requires Emitted(mainOut, wordOut, timeOut, sw, db, tabs)
    ensures |mainOut| <= |sw|
    ensures wordOut == Flatten(WordsOf(sw[..|mainOut|]))
    ensures timeOut == Flatten(tabs)
  {
    if |mainOut| > 0 {
      var k := |mainOut| - 1;
      var w, t := sw[k].word, tabs[k];
      var wo, to := wordOut[..|wordOut| - |w|], timeOut[..|timeOut| - |t|];
      EmittedStreams(mainOut[..k], wo, to, sw, db, tabs[..k]);
      var ws := WordsOf(sw[..k]);
      assert WordsOf(sw[..k + 1]) == ws + [w];
      assert tabs == tabs[..k] + [t];
      FlattenAppend(ws, w);
      FlattenAppend(tabs[..k], t);
      assert wordOut == wo + w;
      assert timeOut == to + t;
    }
  }

  /** The offsets are the wrapped prefix sums of the word lengths and of 16
      bytes per row. */
  lemma {:induction false} EmittedOffsets(mainOut: seq<DbEntry>, wordOut: seq<byte>, timeOut: seq<TimeEntry>,
                                          sw: seq<IndexedWord>, db: seq<DbEntry>, tabs: seq<seq<TimeEntry>>)
    requires Emitted(mainOut, wordOut, timeOut, sw, db, tabs)
    ensures |mainOut| <= |sw|
    ensures OffsetsFollow(mainOut, Lengths(WordsOf(sw[..|mainOut|])), Lengths(tabs))
  {
    if |mainOut| > 0 {
      var k := |mainOut| - 1;
      var w, t := sw[k].word, tabs[k];
      var wo, to := wordOut[..|wordOut| - |w|], timeOut[..|timeOut| - |t|];
      EmittedOffsets(mainOut[..k], wo, to, sw, db, tabs[..k]);
      EmittedStreams(mainOut[..k], wo, to, sw, db, tabs[..k]);
      var ws := WordsOf(sw[..k]);
      FlattenLength(ws);
      FlattenLength(tabs[..k]);
      assert |wo| == Sum(Lengths(ws));
      assert |to| == Sum(Lengths(tabs[..k]));
      OffsetsFollowAppend(mainOut[..k], Lengths(ws), Lengths(tabs[..k]), mainOut[k], |w|, |t|);
      assert mainOut == mainOut[..k] + [mainOut[k]];
      assert WordsOf(sw[..k + 1]) == ws + [w];
      assert Lengths(ws + [w]) == Lengths(ws) + [|w|];
      assert Lengths(tabs) == Lengths(tabs[..k]) + [|t|];
    }
  }

  /** The write loop's state: the two running 32-bit offsets and the three
      output streams. */
  datatype Streams = Streams(woff: nat, toff: nat, mainOut: seq<DbEntry>,
                             wordOut: seq<byte>, timeOut: seq<TimeEntry>)

  /** One pass of the write loop: the record goes out with the running
      offsets, then its word and its rows, and the offsets advance by the
      word's length and 16 bytes per row, with 32-bit wrap. */
  function Emit(s: Streams, e: DbEntry, word: seq<byte>, rows: seq<TimeEntry>): Streams
  {
    Streams(AdvanceWord(s.woff, |word|), AdvanceTime(s.toff, |rows|),
            s.mainOut + [Relocated(e, s.woff, s.toff)], s.wordOut + word, s.timeOut + rows)
  }

  /** Every tagged word indexes one of the n records. */
  predicate IndexesIn(sw: seq<IndexedWord>, n: nat)
  {
    forall k :: 0 <= k < |sw| ==> sw[k].index < n
  }

  /** The rows of the first i tagged words' records. */
  function Tables(sw: seq<IndexedWord>, rowsOf: seq<seq<TimeEntry>>, i: nat): (r: seq<seq<TimeEntry>>)
    requires i <= |sw| && IndexesIn(sw, |rowsOf|)
    ensures |r| == i
    ensures forall k :: 0 <= k < i ==> r[k] == rowsOf[sw[k].index]
  {
    seq(i, k requires 0 <= k < i => rowsOf[sw[k].index])
  }

  /** The state after the first i tagged words have gone out in full, the
      record of position j being `db[j]` and its rows `rowsOf[j]`. */
  function Passes(sw: seq<IndexedWord>, db: seq<DbEntry>, rowsOf: seq<seq<TimeEntry>>, i: nat): Streams
    requires i <= |sw| && IndexesIn(sw, |db|) && |rowsOf| == |db|
  {
    if i == 0 then Streams(0, 0, [], [], [])
    else Emit(Passes(sw, db, rowsOf, i - 1), db[sw[i - 1].index], sw[i - 1].word, rowsOf[sw[i - 1].index])
  }

  /** After i passes the running offsets are the wrapped stream positions. */
  lemma {:induction false} PassesRunning(sw: seq<IndexedWord>, db: seq<DbEntry>, rowsOf: seq<seq<TimeEntry>>, i: nat)
    requires i <= |sw| && IndexesIn(sw, |db|) && |rowsOf| == |db|
    ensures Running(Passes(sw, db, rowsOf, i).woff, Passes(sw, db, rowsOf, i).toff,
                    |Passes(sw, db, rowsOf, i).wordOut|, |Passes(sw, db, rowsOf, i).timeOut|)
  {
    if i > 0 {
      var s := Passes(sw, db, rowsOf, i - 1);
      var word, rows := sw[i - 1].word, rowsOf[sw[i - 1].index];
      PassesRunning(sw, db, rowsOf, i - 1);
      RunningStep(s.woff, s.toff, |s.wordOut|, |s.timeOut|, |word|, |rows|);
      var s' := Passes(sw, db, rowsOf, i);
      assert s' == Emit(s, db[sw[i - 1].index], word, rows);
      assert |s'.wordOut| == |s.wordOut| + |word| && |s'.timeOut| == |s.timeOut| + |rows|;
    }
  }

  /** A pass from a state whose offsets are the wrapped stream positions
      extends what was emitted by the next tagged word's record, word and
      rows. */
  lemma EmitExtends(s: Streams, sw: seq<IndexedWord>, db: seq<DbEntry>, tabs: seq<seq<TimeEntry>>,
                    rows: seq<TimeEntry>)
    requires Emitted(s.mainOut, s.wordOut, s.timeOut, sw, db, tabs)
    requires Running(s.woff, s.toff, |s.wordOut|, |s.timeOut|)
    requires |s.mainOut| < |sw| && sw[|s.mainOut|].index < |db|
    ensures var s' := Emit(s, db[sw[|s.mainOut|].index], sw[|s.mainOut|].word, rows);
            Emitted(s'.mainOut, s'.wordOut, s'.timeOut, sw, db, tabs + [rows])
  {
    var k := |s.mainOut|;
    var w := sw[k].word;
    var e := Relocated(db[sw[k].index], s.woff, s.toff);
    var m', w', t', tabs' := s.mainOut + [e], s.wordOut + w, s.timeOut + rows, tabs + [rows];
    assert m'[..k] == s.mainOut && tabs'[..k] == tabs;
    assert w'[..|w'| - |w|] == s.wordOut;
    assert w'[|w'| - |w|..] == w;
    assert t'[..|t'| - |rows|] == s.timeOut;
    assert t'[|t'| - |rows|..] == rows;
    assert m'[k] == Relocated(db[sw[k].index], (|w'| - |w|) % U32, (TIME_ENTRY_SIZE * (|t'| - |rows|)) % U32);
    assert Emitted(m', w', t', sw, db, tabs');
  }

  /** After i passes the streams hold the first i tagged words' records,
      words and rows. */
  lemma {:induction false} PassesEmitted(sw: seq<IndexedWord>, db: seq<DbEntry>, rowsOf: seq<seq<TimeEntry>>, i: nat)
    requires i <= |sw| && IndexesIn(sw, |db|) && |rowsOf| == |db|
    ensures var s := Passes(sw, db, rowsOf, i);
            Emitted(s.mainOut, s.wordOut, s.timeOut, sw, db, Tables(sw, rowsOf, i))
  {
    if i > 0 {
      var s := Passes(sw, db, rowsOf, i - 1);
      var rows := rowsOf[sw[i - 1].index];
      var tabs := Tables(sw, rowsOf, i - 1);
      PassesEmitted(sw, db, rowsOf, i - 1);
      PassesRunning(sw, db, rowsOf, i - 1);
      assert |s.mainOut| == i - 1;
      EmitExtends(s, sw, db, tabs, rows);
      assert tabs + [rows] == Tables(sw, rowsOf, i);
    }
  }

  /** A last pass whose time write takes only part of the rows still leaves
      the streams in the emitted layout, the last table being that part. */
  lemma EmitPartial(sw: seq<IndexedWord>, db: seq<DbEntry>, rowsOf: seq<seq<TimeEntry>>, i: nat, part: seq<TimeEntry>)
    requires i < |sw| && IndexesIn(sw, |db|) && |rowsOf| == |db|
    ensures var s := Emit(Passes(sw, db, rowsOf, i), db[sw[i].index], sw[i].word, part);
            Emitted(s.mainOut, s.wordOut, s.timeOut, sw, db, Tables(sw, rowsOf, i) + [part])
  {
    var s := Passes(sw, db, rowsOf, i);
    PassesEmitted(sw, db, rowsOf, i);
    PassesRunning(sw, db, rowsOf, i);
    EmitExtends(s, sw, db, Tables(sw, rowsOf, i), part);
  }

  /** The layout after i passes: record k is the k-th tagged word's record
      as read except for its offsets, which are the wrapped running sums of
      the word lengths and of 16 bytes per row before it; the word stream is
      the tagged words end to end and the time stream their rows. */
  lemma PassesLayout(sw: seq<IndexedWord>, db: seq<DbEntry>, rowsOf: seq<seq<TimeEntry>>, i: nat)
    requires i <= |sw| && IndexesIn(sw, |db|) && |rowsOf| == |db|
    ensures var s := Passes(sw, db, rowsOf, i);
            && |s.mainOut| == i
            && (forall k :: 0 <= k < i ==> SameExceptOffsets(s.mainOut[k], db[sw[k].index]))
            && s.wordOut == Flatten(WordsOf(sw[..i]))
            && s.timeOut == Flatten(Tables(sw, rowsOf, i))
            && OffsetsFollow(s.mainOut, Lengths(WordsOf(sw[..i])), Lengths(Tables(sw, rowsOf, i)))
  {
    var s := Passes(sw, db, rowsOf, i);
    var tabs := Tables(sw, rowsOf, i);
    PassesEmitted(sw, db, rowsOf, i);
    EmittedFields(s.mainOut, s.wordOut, s.timeOut, sw, db, tabs);
    EmittedStreams(s.mainOut, s.wordOut, s.timeOut, sw, db, tabs);
    EmittedOffsets(s.mainOut, s.wordOut, s.timeOut, sw, db, tabs);
  }

  /** The first position from k on whose pass does not complete (|ok| if
      every pass does): where a write loop stops. */
  function FirstFalse(ok: seq<bool>, k: nat): (c: nat)
    requires k <= |ok|
    ensures k <= c <= |ok|
    ensures forall j :: k <= j < c ==> ok[j]
    ensures c < |ok| ==> !ok[c]
    decreases |ok| - k
  {
    if k == |ok| then k else if ok[k] then FirstFalse(ok, k + 1) else k
  }

  /** A position up to the stop whose pass does not complete is the stop. */
  lemma FirstFalseAt(ok: seq<bool>, i: nat)
    requires i <= FirstFalse(ok, 0) && i < |ok| && !ok[i]
    ensures FirstFalse(ok, 0) == i
  {
  }
}
