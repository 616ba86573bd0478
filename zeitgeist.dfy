/** `zeitgeist.py`: the per-word summaries of change counts, grouped into
    one document per year and one per word for the topic modeller.  The
    summary file is its lines; `int()` on a token is the parameter
    `parseInt`; the dicts `filter_word_pairs` builds are modelled in
    insertion order. */
module Zeitgeist {
  import opened Wrappers
  import opened PyStrings

  const MIN_YEAR: int := 1500
  const NUM_YEARS: nat := 509

  /** The first year index that gets a document (1750). */
  const FIRST_DOCUMENT_YEAR: nat := 250

  type Word = seq<char>

  /** A word and its multiplicity, as read from one summary line. */
  type Pair = (Word, int)

  /** `is_valid_word`. */
  predicate IsValidWord(word: Word): (r: bool)
    ensures r <==> |word| > 0 && IsAlpha(word[0]) && forall k :: 0 <= k < |word| ==> word[k] != '.' && word[k] != ','
  {
    word != [] && IsAlpha(word[0]) && '.' !in word && ',' !in word
  }

  // ------------------------------------------------------ filter_word_pairs

  /** The position of `word` among the items, if present. */
  function Find(items: seq<Pair>, word: Word): (r: Option<nat>)
    ensures r.Some? ==> r.value < |items| && items[r.value].0 == word
    ensures r.None? ==> forall k :: 0 <= k < |items| ==> items[k].0 != word
  {
    if items == [] then None
    else if items[0].0 == word then Some(0)
    else match Find(items[1..], word)
      case None => None
      case Some(k) => Some(k + 1)
  }

  /** One pass of the loop of `filter_word_pairs`: a word with an underscore
      (a part-of-speech tagged form) is dropped; a new word is added; a
      known one keeps the larger multiplicity. */
  function AddPair(items: seq<Pair>, p: Pair): seq<Pair>
  {
    if |Split(p.0, '_')| != 1 then items
    else match Find(items, p.0)
      case None => items + [p]
      case Some(k) => if p.1 > items[k].1 then items[k := p] else items
  }

  function FilterAfter(pairs: seq<Pair>, n: nat): seq<Pair>
    requires n <= |pairs|
  {
    if n == 0 then [] else AddPair(FilterAfter(pairs, n - 1), pairs[n - 1])
  }

  /** `filter_word_pairs(word_pairs)`. */
  function WordPairs(pairs: seq<Pair>): seq<Pair>
  {
    FilterAfter(pairs, |pairs|)
  }

  ghost predicate Distinct(items: seq<Pair>)
  {
    forall i, j :: 0 <= i < j < |items| ==> items[i].0 != items[j].0
  }

  /** Each item is an underscore-free pair of the first n, with the largest
      multiplicity given for its word. */
  ghost predicate MaxSound(pairs: seq<Pair>, n: nat, items: seq<Pair>)
    requires n <= |pairs|
  {
    forall k :: 0 <= k < |items| ==>
      && '_' !in items[k].0
      && (exists j :: 0 <= j < n && pairs[j] == items[k])
      && forall j :: 0 <= j < n && pairs[j].0 == items[k].0 ==> pairs[j].1 <= items[k].1
  }

  /** Every underscore-free word of the first n pairs has an item. */
  ghost predicate Covers(pairs: seq<Pair>, n: nat, items: seq<Pair>)
    requires n <= |pairs|
  {
    forall j :: 0 <= j < n && '_' !in pairs[j].0 ==> Find(items, pairs[j].0).Some?
  }

  /** The items are the distinct underscore-free words of the first n
      pairs, each with the largest multiplicity given for it. */
  ghost predicate IsMaxOf(pairs: seq<Pair>, n: nat, items: seq<Pair>)
    requires n <= |pairs|
  {
    Distinct(items) && MaxSound(pairs, n, items) && Covers(pairs, n, items)
  }

  lemma {:induction false} FilterMeaning(pairs: seq<Pair>, n: nat)
    requires n <= |pairs|
    ensures IsMaxOf(pairs, n, FilterAfter(pairs, n))
  {
    if n > 0 {
      FilterMeaning(pairs, n - 1);
      FilterStep(pairs, n, FilterAfter(pairs, n - 1));
    }
  }

  lemma FilterStep(pairs: seq<Pair>, n: nat, items: seq<Pair>)
    requires 0 < n <= |pairs| && IsMaxOf(pairs, n - 1, items)
    ensures IsMaxOf(pairs, n, AddPair(items, pairs[n - 1]))
  {
    var p := pairs[n - 1];
    if |Split(p.0, '_')| == 1 {
      match Find(items, p.0)
      case None => FilterStepNew(pairs, n, items);
      case Some(k) =>
        if p.1 > items[k].1 {
          FilterStepRaise(pairs, n, items, k);
        } else {
          FilterStepKeep(pairs, n, items, k);
        }
    }
  }

  /** A new word is added at the end. */
  lemma FilterStepNew(pairs: seq<Pair>, n: nat, items: seq<Pair>)
    requires 0 < n <= |pairs| && IsMaxOf(pairs, n - 1, items)
    requires '_' !in pairs[n - 1].0 && Find(items, pairs[n - 1].0).None?
    ensures IsMaxOf(pairs, n, items + [pairs[n - 1]])
  {
    var items' := items + [pairs[n - 1]];
    assert items'[|items|] == pairs[n - 1];
    forall j | 0 <= j < n && '_' !in pairs[j].0
      ensures Find(items', pairs[j].0).Some?
    {
      if j < n - 1 {
        assert items'[Find(items, pairs[j].0).value].0 == pairs[j].0;
      } else {
        assert items'[|items|].0 == pairs[j].0;
      }
    }
  }

  /** A known word given a larger multiplicity takes it. */
  lemma FilterStepRaise(pairs: seq<Pair>, n: nat, items: seq<Pair>, k: nat)
    requires 0 < n <= |pairs| && IsMaxOf(pairs, n - 1, items)
    requires Find(items, pairs[n - 1].0) == Some(k) && pairs[n - 1].1 > items[k].1
    ensures IsMaxOf(pairs, n, items[k := pairs[n - 1]])
  {
    var items' := items[k := pairs[n - 1]];
    assert forall i :: 0 <= i < |items'| ==> items'[i].0 == items[i].0;
    RaiseSound(pairs, n, items, k);
    forall j | 0 <= j < n && '_' !in pairs[j].0
      ensures Find(items', pairs[j].0).Some?
    {
      var i := if j < n - 1 then Find(items, pairs[j].0).value else k;
      assert items'[i].0 == pairs[j].0;
    }
  }

  lemma RaiseSound(pairs: seq<Pair>, n: nat, items: seq<Pair>, k: nat)
    requires 0 < n <= |pairs| && MaxSound(pairs, n - 1, items) && Distinct(items)
    requires k < |items| && items[k].0 == pairs[n - 1].0 && pairs[n - 1].1 > items[k].1
    ensures MaxSound(pairs, n, items[k := pairs[n - 1]])
  {
    var items' := items[k := pairs[n - 1]];
    forall i | 0 <= i < |items'|
      ensures '_' !in items'[i].0
      ensures exists j :: 0 <= j < n && pairs[j] == items'[i]
      ensures forall j :: 0 <= j < n && pairs[j].0 == items'[i].0 ==> pairs[j].1 <= items'[i].1
    {
      if i == k {
        assert pairs[n - 1] == items'[i];
      } else {
        var j :| 0 <= j < n - 1 && pairs[j] == items[i];
        assert pairs[j] == items'[i];
      }
    }
  }

  /** A known word given no larger multiplicity keeps its own. */
  lemma FilterStepKeep(pairs: seq<Pair>, n: nat, items: seq<Pair>, k: nat)
    requires 0 < n <= |pairs| && IsMaxOf(pairs, n - 1, items)
    requires Find(items, pairs[n - 1].0) == Some(k) && pairs[n - 1].1 <= items[k].1
    ensures IsMaxOf(pairs, n, items)
  {
  }

  /** The loop of `filter_word_pairs`, over the dict as its items. */
  method FilterWordPairs(pairs: seq<Pair>) returns (items: seq<Pair>)
    ensures items == WordPairs(pairs)
  {
    items := [];
    for n := 0 to |pairs|
      invariant items == FilterAfter(pairs, n)
    {
      var (word, mult) := pairs[n];
      var tokens := Split(word, '_');
      if |tokens| == 1 {
        var k := Find(items, word);
        if k.None? {
          items := items + [(word, mult)];
        } else if mult > items[k.value].1 {
          items := items[k.value := (word, mult)];
        }
      }
    }
  }

  // -------------------------------------------------------- year_documents

  /** `for _ in xrange(mult)`: nothing for a multiplicity of 0 or less. */
  function Repeat<T>(x: T, m: int): (r: seq<T>)
    ensures |r| == if m > 0 then m else 0
    ensures forall y <- r :: y == x
    decreases m
  {
    if m <= 0 then [] else Repeat(x, m - 1) + [x]
  }

  /** The words of the items, each repeated its multiplicity times. */
  function Expand(items: seq<Pair>): seq<Word>
  {
    if items == [] then [] else Expand(items[..|items| - 1]) + Repeat(items[|items| - 1].0, items[|items| - 1].1)
  }

  function Positive(m: int): nat
  {
    if m > 0 then m else 0
  }

  /** The total multiplicity the items give `word`. */
  function MultOf(items: seq<Pair>, word: Word): nat
  {
    if items == [] then 0
    else MultOf(items[..|items| - 1], word) + (if items[|items| - 1].0 == word then Positive(items[|items| - 1].1) else 0)
  }

  lemma {:induction false} RepeatCount<T>(x: T, m: int, y: T)
    ensures multiset(Repeat(x, m))[y] == if x == y then Positive(m) else 0
    decreases m
  {
    if m > 0 {
      RepeatCount(x, m - 1, y);
    }
  }

  /** Each word occurs in the expansion as often as its multiplicities say. */
  lemma {:induction false} ExpandCount(items: seq<Pair>, word: Word)
    ensures multiset(Expand(items))[word] == MultOf(items, word)
  {
    if items != [] {
      var last := items[|items| - 1];
      ExpandCount(items[..|items| - 1], word);
      RepeatCount(last.0, last.1, word);
    }
  }

  /** Among distinct items a word's multiplicity is that of its own item. */
  lemma {:induction false} MultOfDistinct(items: seq<Pair>, k: nat)
    requires Distinct(items) && k < |items|
    ensures MultOf(items, items[k].0) == Positive(items[k].1)
  {
    var n := |items| - 1;
    if k < n {
      MultOfDistinct(items[..n], k);
    } else {
      MultOfAbsent(items[..n], items[k].0);
    }
  }

  lemma {:induction false} MultOfAbsent(items: seq<Pair>, word: Word)
    requires forall k :: 0 <= k < |items| ==> items[k].0 != word
    ensures MultOf(items, word) == 0
  {
    if items != [] {
      MultOfAbsent(items[..|items| - 1], word);
    }
  }

  /** The document of year index `year`. */
  function YearDocument(pairs: seq<Pair>, year: nat): seq<Word>
  {
    if year < FIRST_DOCUMENT_YEAR then [] else Expand(WordPairs(pairs))
  }

  /** A year before 1750 has an empty document; from 1750 on, each word of
      the year's filtered pairs occurs exactly its (largest) multiplicity
      times, and no other word occurs. */
  lemma YearDocumentCounts(pairs: seq<Pair>, year: nat, word: Word)
    ensures year < FIRST_DOCUMENT_YEAR ==> YearDocument(pairs, year) == []
    ensures year >= FIRST_DOCUMENT_YEAR ==>
              multiset(YearDocument(pairs, year))[word]
              == match Find(WordPairs(pairs), word)
                 case None => 0
                 case Some(k) => Positive(WordPairs(pairs)[k].1)
  {
    var items := WordPairs(pairs);
    FilterMeaning(pairs, |pairs|);
    ExpandCount(items, word);
    match Find(items, word)
    case None => MultOfAbsent(items, word);
    case Some(k) => MultOfDistinct(items, k);
  }

  /** The inner loops of `year_documents` for one year. */
  method ExpandPairs(items: seq<Pair>) returns (words: seq<Word>)
    ensures words == Expand(items)
  {
    words := [];
    for i := 0 to |items|
      invariant words == Expand(items[..i])
    {
      var (word, mult) := items[i];
      ghost var before := words;
      var r := 0;
      while r < mult
        invariant mult > 0 ==> 0 <= r <= mult
        invariant words == before + Repeat(word, if mult > 0 then r else 0)
      {
        words := words + [word];
        r := r + 1;
      }
      assert items[..i + 1][..i] == items[..i];
    }
    assert items[..|items|] == items;
  }

  /** `year_documents(idx)`. */
  method YearDocuments(idx: seq<seq<Pair>>) returns (docs: seq<seq<Word>>)
    requires |idx| == NUM_YEARS
    ensures |docs| == NUM_YEARS && forall y :: 0 <= y < NUM_YEARS ==> docs[y] == YearDocument(idx[y], y)
  {
    docs := seq(NUM_YEARS, _ => []);
    for year := 0 to NUM_YEARS
      invariant |docs| == NUM_YEARS
      invariant forall y :: 0 <= y < year ==> docs[y] == YearDocument(idx[y], y)
      invariant forall y :: year <= y < NUM_YEARS ==> docs[y] == []
    {
      var words := [];
      if year >= FIRST_DOCUMENT_YEAR {
        var items := FilterWordPairs(idx[year]);
        words := ExpandPairs(items);
      }
      docs := docs[year := words];
    }
  }

  // --------------------------------------------------------- index_summary

  /** What one summary line adds: nothing (`None`) for a line of fewer than
      two tokens, an invalid word or a year outside the list; otherwise the
      list position of its year and its pair.  A token that is not an
      integer raises `ValueError`, which the script does not catch. */
  function LineEntry(line: seq<char>, parseInt: seq<char> -> Option<int>): Result<Option<(nat, Pair)>, PyError>
  {
    var tokens := Tokens(RStrip(line));
    if |tokens| < 2 || !IsValidWord(tokens[0]) then Success(None)
    else match parseInt(tokens[1])
      case None => Failure(ValueError)
      case Some(year) =>
        match (if |tokens| >= 3 then parseInt(tokens[2]) else Some(1))
        case None => Failure(ValueError)
        case Some(mult) =>
          match PyIndex(year, NUM_YEARS)
          case None => Success(None)
          case Some(p) => Success(Some((p, (tokens[0], mult))))
  }

  /** A line of fewer than two tokens or with an invalid word adds nothing;
      an added pair is the line's first token with the multiplicity of its
      third token, or 1 when there is none, at the list position of the
      year of its second token; only `ValueError` escapes. */
  lemma LineEntryMeaning(line: seq<char>, parseInt: seq<char> -> Option<int>)
    ensures var r := LineEntry(line, parseInt);
            && (|Tokens(line)| < 2 || !IsValidWord(Tokens(line)[0]) ==> r == Success(None))
            && (r.Success? && r.value.Some? ==>
                  var (p, (word, mult)) := r.value.value;
                  var tokens := Tokens(line);
                  && p < NUM_YEARS && word == tokens[0] && IsValidWord(word)
                  && (|tokens| == 2 ==> mult == 1)
                  && (|tokens| >= 3 ==> parseInt(tokens[2]) == Some(mult))
                  && exists year :: parseInt(tokens[1]) == Some(year) && PyIndex(year, NUM_YEARS) == Some(p))
            && (r.Failure? ==> r.error == ValueError)
  {
    TokensRStrip(line);
  }

  /** The index after the first n lines. */
  function SummaryAfter(lines: seq<seq<char>>, n: nat, parseInt: seq<char> -> Option<int>)
    : (r: Result<seq<seq<Pair>>, PyError>)
    requires n <= |lines|
    ensures r.Success? ==> |r.value| == NUM_YEARS
  {
    if n == 0 then Success(seq(NUM_YEARS, _ => []))
    else match SummaryAfter(lines, n - 1, parseInt)
      case Failure(e) => Failure(e)
      case Success(idx) =>
        match LineEntry(lines[n - 1], parseInt)
        case Failure(e) => Failure(e)
        case Success(None) => Success(idx)
        case Success(Some((p, pair))) => Success(idx[p := idx[p] + [pair]])
  }

  /** A loaded index is a list of 509 lists whose every pair came from a
      line, with a valid word, at that position. */
  lemma {:induction false} SummarySound(lines: seq<seq<char>>, n: nat, parseInt: seq<char> -> Option<int>)
    requires n <= |lines| && SummaryAfter(lines, n, parseInt).Success?
    ensures var idx := SummaryAfter(lines, n, parseInt).value;
            forall p, j :: 0 <= p < NUM_YEARS && 0 <= j < |idx[p]| ==>
              IsValidWord(idx[p][j].0) && exists k :: 0 <= k < n && LineEntry(lines[k], parseInt) == Success(Some((p, idx[p][j])))
  {
    if n > 0 {
      SummarySound(lines, n - 1, parseInt);
      var idx: seq<seq<Pair>> := SummaryAfter(lines, n - 1, parseInt).value;
      var idx': seq<seq<Pair>> := SummaryAfter(lines, n, parseInt).value;
      LineEntryMeaning(lines[n - 1], parseInt);
      forall p, j | 0 <= p < NUM_YEARS && 0 <= j < |idx'[p]|
        ensures IsValidWord(idx'[p][j].0)
        ensures exists k :: 0 <= k < n && LineEntry(lines[k], parseInt) == Success(Some((p, idx'[p][j])))
      {
        if LineEntry(lines[n - 1], parseInt) == Success(Some((p, idx'[p][j]))) {
        } else {
          assert j < |idx[p]| && idx'[p][j] == idx[p][j];
        }
      }
    }
  }

  /** Every accepted line's pair is in the index, at its year's position. */
  lemma {:induction false} SummaryComplete(lines: seq<seq<char>>, n: nat, parseInt: seq<char> -> Option<int>)
    requires n <= |lines| && SummaryAfter(lines, n, parseInt).Success?
    ensures forall k, p, pair :: 0 <= k < n && LineEntry(lines[k], parseInt) == Success(Some((p, pair))) ==>
              pair in SummaryAfter(lines, n, parseInt).value[p]
  {
    if n > 0 {
      SummaryComplete(lines, n - 1, parseInt);
      var idx: seq<seq<Pair>> := SummaryAfter(lines, n - 1, parseInt).value;
      var idx': seq<seq<Pair>> := SummaryAfter(lines, n, parseInt).value;
      forall p | 0 <= p < NUM_YEARS
        ensures multiset(idx[p]) <= multiset(idx'[p])
      {
      }
    }
  }

  /** `index_summary(filename)`. */
  method IndexSummary(lines: seq<seq<char>>, parseInt: seq<char> -> Option<int>) returns (r: Result<seq<seq<Pair>>, PyError>)
    ensures r == SummaryAfter(lines, |lines|, parseInt)
  {
    var idx: seq<seq<Pair>> := seq(NUM_YEARS, _ => []);
    for n := 0 to |lines|
      invariant SummaryAfter(lines, n, parseInt) == Success(idx)
    {
      var tokens := Tokens(RStrip(lines[n]));
      if |tokens| >= 2 {
        var word := tokens[0];
        if IsValidWord(word) {
          var year := parseInt(tokens[1]);
          if year.None? {
            AfterFailure(lines, n + 1, parseInt);
            return Failure(ValueError);
          }
          var mult := Some(1);
          if |tokens| >= 3 {
            mult := parseInt(tokens[2]);
            if mult.None? {
              AfterFailure(lines, n + 1, parseInt);
              return Failure(ValueError);
            }
          }
          var p := PyIndex(year.value, NUM_YEARS);
          if p.Some? {
            idx := idx[p.value := idx[p.value] + [(word, mult.value)]];
          }
        }
      }
    }
    return Success(idx);
  }

  /** A failed line ends the whole read with the same error. */
  lemma {:induction false} AfterFailure(lines: seq<seq<char>>, n: nat, parseInt: seq<char> -> Option<int>)
    requires 0 < n <= |lines| && SummaryAfter(lines, n, parseInt).Failure?
    ensures SummaryAfter(lines, |lines|, parseInt) == SummaryAfter(lines, n, parseInt)
    decreases |lines| - n
  {
    if n < |lines| {
      AfterFailure(lines, n + 1, parseInt);
    }
  }

  // -------------------------------------------------------- word_documents

  /** One list of `word_documents`: the word, then a year index per use. */
  datatype WordDocument = WordDocument(word: Word, years: seq<nat>)

  /** The position of the list of `word`, if there is one. */
  function FindDoc(docs: seq<WordDocument>, word: Word): (r: Option<nat>)
    ensures r.Some? ==> r.value < |docs| && docs[r.value].word == word
    ensures r.None? ==> forall k :: 0 <= k < |docs| ==> docs[k].word != word
  {
    if docs == [] then None
    else if docs[0].word == word then Some(0)
    else match FindDoc(docs[1..], word)
      case None => None
      case Some(k) => Some(k + 1)
  }

  /** One item of a year: a first-seen word opens a new list; its year is
      appended once per unit of multiplicity. */
  function AddItem(docs: seq<WordDocument>, item: Pair, year: nat): seq<WordDocument>
  {
    match FindDoc(docs, item.0)
    case None => docs + [WordDocument(item.0, Repeat(year, item.1))]
    case Some(k) => docs[k := WordDocument(item.0, docs[k].years + Repeat(year, item.1))]
  }

  function AddItems(docs: seq<WordDocument>, items: seq<Pair>, year: nat): seq<WordDocument>
  {
    if items == [] then docs
    else AddItem(AddItems(docs, items[..|items| - 1], year), items[|items| - 1], year)
  }

  /** The filtered pairs of every year of the index. */
  function Filtered(idx: seq<seq<Pair>>): (r: seq<seq<Pair>>)
    ensures |r| == |idx| && forall y :: 0 <= y < |idx| ==> r[y] == WordPairs(idx[y])
  {
    seq(|idx|, (y: int) requires 0 <= y < |idx| => WordPairs(idx[y]))
  }

  /** The lists after the first y years, from the filtered pairs of each. */
  function WordDocsAfter(filtered: seq<seq<Pair>>, y: nat): seq<WordDocument>
    requires y <= |filtered|
  {
    if y == 0 then []
    else
      var docs := WordDocsAfter(filtered, y - 1);
      if y - 1 >= FIRST_DOCUMENT_YEAR then AddItems(docs, filtered[y - 1], y - 1) else docs
  }

  ghost predicate DistinctDocs(docs: seq<WordDocument>)
  {
    forall i, j :: 0 <= i < j < |docs| ==> docs[i].word != docs[j].word
  }

  /** The years of the list of `word`, none when there is no list. */
  function YearsOf(docs: seq<WordDocument>, word: Word): seq<nat>
  {
    match FindDoc(docs, word)
    case None => []
    case Some(k) => docs[k].years
  }

  lemma {:induction false} FindDocUnique(docs: seq<WordDocument>, k: nat)
    requires DistinctDocs(docs) && k < |docs|
    ensures FindDoc(docs, docs[k].word) == Some(k)
  {
    if k > 0 {
      FindDocUnique(docs[1..], k - 1);
    }
  }

  /** Lists with the same words in the same places are searched alike. */
  lemma {:induction false} FindDocSameWords(docs: seq<WordDocument>, docs': seq<WordDocument>, word: Word)
    requires |docs| == |docs'| && forall i :: 0 <= i < |docs| ==> docs[i].word == docs'[i].word
    ensures FindDoc(docs, word) == FindDoc(docs', word)
  {
    if docs != [] {
      FindDocSameWords(docs[1..], docs'[1..], word);
    }
  }

  lemma {:induction false} FindDocAppend(docs: seq<WordDocument>, d: WordDocument, word: Word)
    ensures FindDoc(docs + [d], word)
            == if FindDoc(docs, word).Some? then FindDoc(docs, word) else if d.word == word then Some(|docs|) else None
  {
    if docs != [] {
      assert (docs + [d])[1..] == docs[1..] + [d];
      FindDocAppend(docs[1..], d, word);
    }
  }

  /** Adding an item keeps one list per word, opens a list for its word,
      and adds its multiplicity to exactly its word's count of its year. */
  lemma AddItemMeaning(docs: seq<WordDocument>, item: Pair, year: nat, word: Word, y: nat)
    requires DistinctDocs(docs)
    ensures DistinctDocs(AddItem(docs, item, year))
    ensures FindDoc(AddItem(docs, item, year), word).Some? <==> FindDoc(docs, word).Some? || word == item.0
    ensures multiset(YearsOf(AddItem(docs, item, year), word))[y]
            == multiset(YearsOf(docs, word))[y] + (if word == item.0 && y == year then Positive(item.1) else 0)
  {
    var docs' := AddItem(docs, item, year);
    RepeatCount(year, item.1, y);
    match FindDoc(docs, item.0)
    case None =>
      FindDocAppend(docs, WordDocument(item.0, Repeat(year, item.1)), word);
    case Some(k) =>
      FindDocSameWords(docs, docs', word);
  }

  lemma {:induction false} AddItemsMeaning(docs: seq<WordDocument>, items: seq<Pair>, year: nat, word: Word, y: nat)
    requires DistinctDocs(docs)
    ensures DistinctDocs(AddItems(docs, items, year))
    ensures FindDoc(AddItems(docs, items, year), word).Some? <==> FindDoc(docs, word).Some? || Find(items, word).Some?
    ensures multiset(YearsOf(AddItems(docs, items, year), word))[y]
            == multiset(YearsOf(docs, word))[y] + (if y == year then MultOf(items, word) else 0)
  {
    if items != [] {
      var n := |items| - 1;
      AddItemsMeaning(docs, items[..n], year, word, y);
      AddItemMeaning(AddItems(docs, items[..n], year), items[n], year, word, y);
      FindPrefix(items, word);
    }
  }

  /** A word is among the items exactly when it is among all but the last
      or is the last. */
  lemma FindPrefix(items: seq<Pair>, word: Word)
    requires items != []
    ensures Find(items, word).Some? <==> Find(items[..|items| - 1], word).Some? || items[|items| - 1].0 == word
  {
    var n := |items| - 1;
    if Find(items, word).Some? && items[n].0 != word {
      var k := Find(items, word).value;
      assert items[..n][k].0 == word;
    }
    if Find(items[..n], word).Some? {
      assert items[Find(items[..n], word).value].0 == word;
    }
  }

  /** After n years there is one list per word. */
  lemma {:induction false} WordDocumentsDistinct(filtered: seq<seq<Pair>>, n: nat)
    requires n <= |filtered|
    ensures DistinctDocs(WordDocsAfter(filtered, n))
  {
    if n > 0 {
      WordDocumentsDistinct(filtered, n - 1);
      if n - 1 >= FIRST_DOCUMENT_YEAR {
        AddItemsMeaning(WordDocsAfter(filtered, n - 1), filtered[n - 1], n - 1, [], 0);
      }
    }
  }

  /** `word` is among the filtered pairs of year index y. */
  predicate InYear(filtered: seq<seq<Pair>>, y: nat, word: Word)
    requires y < |filtered|
  {
    Find(filtered[y], word).Some?
  }

  /** `word_documents(filtered)` after n years has a list for a word exactly when
      the word is among the filtered pairs of a year from 1750 on. */
  lemma {:induction false} WordDocumentsWords(filtered: seq<seq<Pair>>, n: nat, word: Word)
    requires n <= |filtered|
    ensures FindDoc(WordDocsAfter(filtered, n), word).Some?
            <==> exists y :: FIRST_DOCUMENT_YEAR <= y < n && InYear(filtered, y, word)
  {
    if n > 0 {
      WordDocumentsWords(filtered, n - 1, word);
      var before := FindDoc(WordDocsAfter(filtered, n - 1), word).Some?;
      var now := FindDoc(WordDocsAfter(filtered, n), word).Some?;
      WordDocumentsWordStep(filtered, n, word, WordDocsAfter(filtered, n - 1), WordDocsAfter(filtered, n));
      if now {
        if !before {
          assert FIRST_DOCUMENT_YEAR <= n - 1 < n && InYear(filtered, n - 1, word);
        } else {
          var y :| FIRST_DOCUMENT_YEAR <= y < n - 1 && InYear(filtered, y, word);
          assert FIRST_DOCUMENT_YEAR <= y < n && InYear(filtered, y, word);
        }
      }
      if exists y :: FIRST_DOCUMENT_YEAR <= y < n && InYear(filtered, y, word) {
        var y :| FIRST_DOCUMENT_YEAR <= y < n && InYear(filtered, y, word);
        if y < n - 1 {
          assert before;
        }
      }
    }
  }

  /** Year n - 1 opens a list for the words among its filtered pairs. */
  lemma WordDocumentsWordStep(filtered: seq<seq<Pair>>, n: nat, word: Word,
                              docs: seq<WordDocument>, docs': seq<WordDocument>)
    requires 0 < n <= |filtered| && docs == WordDocsAfter(filtered, n - 1) && docs' == WordDocsAfter(filtered, n)
    ensures FindDoc(docs', word).Some? <==> FindDoc(docs, word).Some? || (FIRST_DOCUMENT_YEAR <= n - 1 && InYear(filtered, n - 1, word))
  {
    if n - 1 >= FIRST_DOCUMENT_YEAR {
      YearAddsWord(filtered, n - 1, word, docs, filtered[n - 1], docs');
    }
  }

  lemma YearAddsWord(filtered: seq<seq<Pair>>, year: nat, word: Word,
                     docs: seq<WordDocument>, items: seq<Pair>, docs': seq<WordDocument>)
    requires year < |filtered| && docs == WordDocsAfter(filtered, year) && items == filtered[year]
    requires docs' == AddItems(docs, items, year)
    ensures FindDoc(docs', word).Some? <==> FindDoc(docs, word).Some? || Find(items, word).Some?
  {
    WordDocumentsDistinct(filtered, year);
    AddItemsMeaning(docs, items, year, word, 0);
  }

  /** In the list of a word, the year index of every year y from 1750 on
      appears as often as the word's multiplicity among that year's filtered
      pairs, and no other year appears. */
  lemma {:induction false} WordDocumentsCounts(filtered: seq<seq<Pair>>, n: nat, word: Word, y: nat)
    requires n <= |filtered|
    ensures multiset(YearsOf(WordDocsAfter(filtered, n), word))[y]
            == if FIRST_DOCUMENT_YEAR <= y < n then MultOf(filtered[y], word) else 0
  {
    if n > 0 {
      WordDocumentsCounts(filtered, n - 1, word, y);
      WordDocumentsCountStep(filtered, n, word, y, WordDocsAfter(filtered, n - 1), WordDocsAfter(filtered, n));
    }
  }

  /** Year n - 1 adds the word's multiplicity to its own count only. */
  lemma WordDocumentsCountStep(filtered: seq<seq<Pair>>, n: nat, word: Word, y: nat,
                               docs: seq<WordDocument>, docs': seq<WordDocument>)
    requires 0 < n <= |filtered| && docs == WordDocsAfter(filtered, n - 1) && docs' == WordDocsAfter(filtered, n)
    ensures multiset(YearsOf(docs', word))[y]
            == multiset(YearsOf(docs, word))[y]
               + (if FIRST_DOCUMENT_YEAR <= n - 1 && y == n - 1 then MultOf(filtered[n - 1], word) else 0)
  {
    if n - 1 >= FIRST_DOCUMENT_YEAR {
      YearAddsCount(filtered, n - 1, word, y, docs, filtered[n - 1], docs');
    }
  }

  /** The items of one year add their multiplicity to that year's count. */
  lemma YearAddsCount(filtered: seq<seq<Pair>>, year: nat, word: Word, y: nat,
                      docs: seq<WordDocument>, items: seq<Pair>, docs': seq<WordDocument>)
    requires year < |filtered| && docs == WordDocsAfter(filtered, year) && items == filtered[year]
    requires docs' == AddItems(docs, items, year)
    ensures multiset(YearsOf(docs', word))[y] == multiset(YearsOf(docs, word))[y] + (if y == year then MultOf(items, word) else 0)
  {
    WordDocumentsDistinct(filtered, year);
    AddItemsMeaning(docs, items, year, word, y);
  }

  /** For the whole index: the list of a word filtered in year index y
      (from 1750 on) holds y exactly as many times as the largest
      multiplicity given for the word that year. */
  lemma WordDocumentYearCount(idx: seq<seq<Pair>>, y: nat, k: nat)
    requires FIRST_DOCUMENT_YEAR <= y < |idx| && k < |WordPairs(idx[y])|
    ensures multiset(YearsOf(WordDocsAfter(Filtered(idx), |idx|), WordPairs(idx[y])[k].0))[y]
            == Positive(WordPairs(idx[y])[k].1)
  {
    var items := WordPairs(idx[y]);
    WordDocumentsCounts(Filtered(idx), |idx|, items[k].0, y);
    FilterMeaning(idx[y], |idx[y]|);
    MultOfDistinct(items, k);
  }

  /** The items `word_documents` visits in the first n years, in the order
      of its loops: year by year from 1750 on, and within a year in the
      order of `filter_word_pairs`.  Position in this stream orders the
      (year index, item position) pairs lexicographically. */
  function Stream(filtered: seq<seq<Pair>>, n: nat): seq<Pair>
    requires n <= |filtered|
  {
    if n == 0 then []
    else Stream(filtered, n - 1) + (if n - 1 >= FIRST_DOCUMENT_YEAR then filtered[n - 1] else [])
  }

  /** The lists hold exactly the words of the stream `s`, in the order in
      which each word first occurs there. */
  ghost predicate FirstSeenOrder(docs: seq<WordDocument>, s: seq<Pair>)
  {
    && (forall k :: 0 <= k < |docs| ==> Find(s, docs[k].word).Some?)
    && (forall w :: Find(s, w).Some? ==> FindDoc(docs, w).Some?)
    && (forall i, j :: 0 <= i < j < |docs| ==> Find(s, docs[i].word).value < Find(s, docs[j].word).value)
  }

  /** `Find` returns the first position holding the word. */
  lemma {:induction false} FindFirst(items: seq<Pair>, word: Word)
    ensures Find(items, word).Some? ==> forall k :: 0 <= k < Find(items, word).value ==> items[k].0 != word
  {
    if items != [] && items[0].0 != word {
      FindFirst(items[1..], word);
      if Find(items, word).Some? {
        forall k | 0 < k < Find(items, word).value
          ensures items[k].0 != word
        {
          assert items[k] == items[1..][k - 1];
        }
      }
    }
  }

  /** The first occurrence in a stream with one more item. */
  lemma FindAppendItem(s: seq<Pair>, p: Pair, w: Word)
    ensures Find(s + [p], w) == if Find(s, w).Some? then Find(s, w) else if p.0 == w then Some(|s|) else None
  {
    FindFirst(s, w);
    FindFirst(s + [p], w);
    if Find(s, w).Some? {
      assert (s + [p])[Find(s, w).value].0 == w;
    } else if p.0 == w {
      assert (s + [p])[|s|].0 == w;
    }
    assert forall k :: 0 <= k < |s| ==> (s + [p])[k] == s[k];
  }

  /** `index = len(words); word_docs.append([word])`: a word first seen
      opens a list after all the others, a known word keeps its place. */
  lemma AddItemFirstSeen(docs: seq<WordDocument>, s: seq<Pair>, item: Pair, year: nat)
    requires FirstSeenOrder(docs, s)
    ensures FirstSeenOrder(AddItem(docs, item, year), s + [item])
  {
    match FindDoc(docs, item.0)
    case Some(k) =>
      KnownItemFirstSeen(docs, s, item, k, AddItem(docs, item, year));
    case None =>
      NewItemFirstSeen(docs, s, item, WordDocument(item.0, Repeat(year, item.1)));
  }

  /** A known word: the lists keep their words and places. */
  lemma KnownItemFirstSeen(docs: seq<WordDocument>, s: seq<Pair>, item: Pair, k: nat, docs': seq<WordDocument>)
    requires FirstSeenOrder(docs, s) && k < |docs| && docs[k].word == item.0
    requires |docs'| == |docs| && forall i :: 0 <= i < |docs| ==> docs'[i].word == docs[i].word
    ensures FirstSeenOrder(docs', s + [item])
  {
    var s' := s + [item];
    forall i | 0 <= i < |docs'|
      ensures Find(s', docs'[i].word) == Find(s, docs[i].word)
    {
      FindAppendItem(s, item, docs[i].word);
    }
    forall w | Find(s', w).Some?
      ensures FindDoc(docs', w).Some?
    {
      FindAppendItem(s, item, w);
      FindDocSameWords(docs, docs', w);
    }
  }

  /** A word first seen: its list goes after all the others, and its first
      occurrence is the new last item of the stream. */
  lemma NewItemFirstSeen(docs: seq<WordDocument>, s: seq<Pair>, item: Pair, d: WordDocument)
    requires FirstSeenOrder(docs, s) && FindDoc(docs, item.0).None? && d.word == item.0
    ensures FirstSeenOrder(docs + [d], s + [item])
  {
    NewItemPositions(docs, s, item, d);
    NewItemComplete(docs, s, item, d);
  }

  /** The old lists keep their first occurrences, and the new one's is the
      new last item. */
  lemma NewItemPositions(docs: seq<WordDocument>, s: seq<Pair>, item: Pair, d: WordDocument)
    requires FirstSeenOrder(docs, s) && FindDoc(docs, item.0).None? && d.word == item.0
    ensures forall k :: 0 <= k < |docs| ==> Find(s + [item], (docs + [d])[k].word) == Find(s, docs[k].word)
    ensures Find(s + [item], (docs + [d])[|docs|].word) == Some(|s|)
  {
    assert Find(s, item.0).None?;
    FindAppendItem(s, item, item.0);
    forall k | 0 <= k < |docs|
      ensures Find(s + [item], (docs + [d])[k].word) == Find(s, docs[k].word)
    {
      assert (docs + [d])[k] == docs[k];
      FindAppendItem(s, item, docs[k].word);
    }
  }

  /** Every word of the longer stream has a list. */
  lemma NewItemComplete(docs: seq<WordDocument>, s: seq<Pair>, item: Pair, d: WordDocument)
    requires FirstSeenOrder(docs, s) && d.word == item.0
    ensures forall w :: Find(s + [item], w).Some? ==> FindDoc(docs + [d], w).Some?
  {
    forall w | Find(s + [item], w).Some?
      ensures FindDoc(docs + [d], w).Some?
    {
      FindAppendItem(s, item, w);
      FindDocAppend(docs, d, w);
    }
  }

  lemma {:induction false} AddItemsFirstSeen(docs: seq<WordDocument>, s: seq<Pair>, items: seq<Pair>, year: nat)
    requires FirstSeenOrder(docs, s)
    ensures FirstSeenOrder(AddItems(docs, items, year), s + items)
  {
    if items == [] {
      assert s + items == s;
      SameFirstSeen(docs, s, AddItems(docs, items, year), s + items);
    } else {
      var n := |items| - 1;
      var front := AddItems(docs, items[..n], year);
      AddItemsFirstSeen(docs, s, items[..n], year);
      AddItemFirstSeen(front, s + items[..n], items[n], year);
      assert s + items == (s + items[..n]) + [items[n]];
      SameFirstSeen(AddItem(front, items[n], year), (s + items[..n]) + [items[n]], AddItems(docs, items, year), s + items);
    }
  }

  /** The lists of `word_documents` come in the order in which their words
      are first met: list k's word occurs in the stream of visited items,
      and for i < j the first occurrence of list i's word comes before that
      of list j's. */
  lemma {:induction false} WordDocumentsFirstSeen(filtered: seq<seq<Pair>>, n: nat)
    requires n <= |filtered|
    ensures FirstSeenOrder(WordDocsAfter(filtered, n), Stream(filtered, n))
  {
    if n == 0 {
      FirstSeenEmpty();
    } else {
      WordDocumentsFirstSeen(filtered, n - 1);
      YearFirstSeen(filtered, n, WordDocsAfter(filtered, n - 1), Stream(filtered, n - 1));
    }
  }

  lemma FirstSeenEmpty()
    ensures FirstSeenOrder([], [])
  {
    forall w
      ensures Find([], w).None?
    {
    }
  }

  /** Year n - 1 keeps the lists in first-seen order of the longer stream. */
  lemma YearFirstSeen(filtered: seq<seq<Pair>>, n: nat, docs: seq<WordDocument>, st: seq<Pair>)
    requires 0 < n <= |filtered| && docs == WordDocsAfter(filtered, n - 1) && st == Stream(filtered, n - 1)
    requires FirstSeenOrder(docs, st)
    ensures FirstSeenOrder(WordDocsAfter(filtered, n), Stream(filtered, n))
  {
    var docs', st' := WordDocsAfter(filtered, n), Stream(filtered, n);
    YearShape(filtered, n, docs, st, docs', st');
    if n - 1 >= FIRST_DOCUMENT_YEAR {
      AddItemsFirstSeen(docs, st, filtered[n - 1], n - 1);
      SameFirstSeen(AddItems(docs, filtered[n - 1], n - 1), st + filtered[n - 1], docs', st');
    } else {
      SameFirstSeen(docs, st, docs', st');
    }
  }

  /** What year n - 1 does to the lists and to the stream. */
  lemma YearShape(filtered: seq<seq<Pair>>, n: nat, docs: seq<WordDocument>, st: seq<Pair>,
                  docs': seq<WordDocument>, st': seq<Pair>)
    requires 0 < n <= |filtered| && docs == WordDocsAfter(filtered, n - 1) && st == Stream(filtered, n - 1)
    requires docs' == WordDocsAfter(filtered, n) && st' == Stream(filtered, n)
    ensures n - 1 >= FIRST_DOCUMENT_YEAR ==> docs' == AddItems(docs, filtered[n - 1], n - 1) && st' == st + filtered[n - 1]
    ensures n - 1 < FIRST_DOCUMENT_YEAR ==> docs' == docs && st' == st
  {
    if n - 1 < FIRST_DOCUMENT_YEAR {
      assert st + [] == st;
    }
  }

  lemma SameFirstSeen(docs: seq<WordDocument>, s: seq<Pair>, docs': seq<WordDocument>, s': seq<Pair>)
    requires FirstSeenOrder(docs, s) && docs == docs' && s == s'
    ensures FirstSeenOrder(docs', s')
  {
  }

  predicate Ascending(years: seq<nat>)
  {
    forall i, j :: 0 <= i < j < |years| ==> years[i] <= years[j]
  }

  /** Every list's years never go down and lie in [1750, b). */
  ghost predicate YearsWithin(docs: seq<WordDocument>, b: nat)
  {
    forall d <- docs :: Ascending(d.years) && forall x <- d.years :: FIRST_DOCUMENT_YEAR <= x < b
  }

  /** Appending copies of `year` after years at most `year` keeps them ascending. */
  lemma AscendingAppend(a: seq<nat>, year: nat, m: int)
    requires Ascending(a) && forall x <- a :: x <= year
    ensures Ascending(a + Repeat(year, m))
  {
    var r := a + Repeat(year, m);
    forall i, j | 0 <= i < j < |r|
      ensures r[i] <= r[j]
    {
      if j >= |a| {
        assert r[j] in Repeat(year, m);
        if i < |a| {
          assert r[i] in a;
        } else {
          assert r[i] in Repeat(year, m);
        }
      }
    }
  }

  /** The years appended for one item are the current year, the latest. */
  lemma AddItemYears(docs: seq<WordDocument>, item: Pair, year: nat)
    requires FIRST_DOCUMENT_YEAR <= year && YearsWithin(docs, year + 1)
    ensures YearsWithin(AddItem(docs, item, year), year + 1)
  {
    AscendingAppend([], year, item.1);
    assert [] + Repeat(year, item.1) == Repeat(year, item.1);
    match FindDoc(docs, item.0)
    case None =>
    case Some(k) =>
      assert docs[k] in docs;
      AscendingAppend(docs[k].years, year, item.1);
      var docs' := AddItem(docs, item, year);
      forall d <- docs'
        ensures Ascending(d.years) && forall x <- d.years :: FIRST_DOCUMENT_YEAR <= x < year + 1
      {
        var i :| 0 <= i < |docs'| && docs'[i] == d;
        if i != k {
          assert docs[i] in docs;
        }
      }
  }

  lemma {:induction false} AddItemsYears(docs: seq<WordDocument>, items: seq<Pair>, year: nat)
    requires FIRST_DOCUMENT_YEAR <= year && YearsWithin(docs, year + 1)
    ensures YearsWithin(AddItems(docs, items, year), year + 1)
  {
    if items != [] {
      AddItemsYears(docs, items[..|items| - 1], year);
      AddItemYears(AddItems(docs, items[..|items| - 1], year), items[|items| - 1], year);
    }
  }

  /** The outer loop goes up the years, so within every list of
      `word_documents` the year indices never go down; they all lie in
      [1750, n) after n years. */
  lemma {:induction false} WordDocumentsYearsSorted(filtered: seq<seq<Pair>>, n: nat)
    requires n <= |filtered|
    ensures forall d <- WordDocsAfter(filtered, n), i, j | 0 <= i < j < |d.years| :: d.years[i] <= d.years[j]
    ensures forall d <- WordDocsAfter(filtered, n), x <- d.years :: FIRST_DOCUMENT_YEAR <= x < n
  {
    WordDocumentsYearsWithin(filtered, n);
  }

  lemma {:induction false} WordDocumentsYearsWithin(filtered: seq<seq<Pair>>, n: nat)
    requires n <= |filtered|
    ensures YearsWithin(WordDocsAfter(filtered, n), n)
  {
    if n > 0 {
      WordDocumentsYearsWithin(filtered, n - 1);
      if n - 1 >= FIRST_DOCUMENT_YEAR {
        AddItemsYears(WordDocsAfter(filtered, n - 1), filtered[n - 1], n - 1);
      }
    }
  }

  /** The dict `words` of `word_documents`: each word's list position. */
  ghost predicate Indexed(docs: seq<WordDocument>, words: map<Word, nat>)
  {
    && DistinctDocs(docs)
    && (forall w <- words :: words[w] < |docs| && docs[words[w]].word == w)
    && (forall k :: 0 <= k < |docs| ==> docs[k].word in words)
  }

  /** One item of the inner loop of `word_documents`. */
  method AddItemTo(docs: seq<WordDocument>, words: map<Word, nat>, item: Pair, year: nat)
    returns (docs': seq<WordDocument>, words': map<Word, nat>)
    requires Indexed(docs, words)
    ensures docs' == AddItem(docs, item, year) && Indexed(docs', words')
  {
    var (word, mult) := item;
    var years: seq<nat> := [];
    var found := word in words;
    var index;
    if word in words {
      index := words[word];
      FindDocUnique(docs, index);
      years := docs[index].years;
    } else {
      index := |docs|;
    }
    ghost var start := years;
    var r := 0;
    while r < mult
      invariant mult > 0 ==> 0 <= r <= mult
      invariant years == start + Repeat(year, if mult > 0 then r else 0)
    {
      years := years + [year];
      r := r + 1;
    }
    assert years == start + Repeat(year, mult);
    if found {
      docs', words' := docs[index := WordDocument(word, years)], words;
      assert AddItem(docs, item, year) == docs';
      IndexedUpdate(docs, words, index, WordDocument(word, years));
    } else {
      assert FindDoc(docs, word) == None;
      assert years == Repeat(year, mult);
      docs', words' := docs + [WordDocument(word, years)], words[word := index];
      assert AddItem(docs, item, year) == docs';
      IndexedAppend(docs, words, WordDocument(word, years));
    }
  }

  lemma IndexedUpdate(docs: seq<WordDocument>, words: map<Word, nat>, k: nat, d: WordDocument)
    requires Indexed(docs, words) && k < |docs| && d.word == docs[k].word
    ensures Indexed(docs[k := d], words)
  {
    assert forall i :: 0 <= i < |docs| ==> docs[k := d][i].word == docs[i].word;
  }

  lemma IndexedAppend(docs: seq<WordDocument>, words: map<Word, nat>, d: WordDocument)
    requires Indexed(docs, words) && d.word !in words
    ensures Indexed(docs + [d], words[d.word := |docs|])
  {
    assert forall i :: 0 <= i < |docs| ==> (docs + [d])[i] == docs[i];
  }

  /** `word_documents(idx)`. */
  method WordDocuments(idx: seq<seq<Pair>>) returns (docs: seq<WordDocument>)
    ensures docs == WordDocsAfter(Filtered(idx), |idx|)
  {
    docs := [];
    var words: map<Word, nat> := map[];
    for year := 0 to |idx|
      invariant docs == WordDocsAfter(Filtered(idx), year) && Indexed(docs, words)
    {
      if year >= FIRST_DOCUMENT_YEAR {
        var items := FilterWordPairs(idx[year]);
        ghost var start := docs;
        for i := 0 to |items|
          invariant docs == AddItems(start, items[..i], year) && Indexed(docs, words)
        {
          assert items[..i + 1][..i] == items[..i];
          docs, words := AddItemTo(docs, words, items[i], year);
        }
        assert items[..|items|] == items;
      }
    }
  }

  // ----------------------------------------------------------- history rows

  /** A line `row_id,year,year <1500 + year>,<words>` of the history file. */
  datatype HistoryRow = HistoryRow(id: nat, yearIndex: nat, year: int, words: seq<Word>)

  /** The rows of the first n year documents: one per non-empty document. */
  function HistoryRowsAfter(docs: seq<seq<Word>>, n: nat): seq<HistoryRow>
    requires n <= |docs|
  {
    if n == 0 then []
    else
      var rows := HistoryRowsAfter(docs, n - 1);
      if docs[n - 1] != [] then rows + [HistoryRow(|rows| + 1, n - 1, MIN_YEAR + n - 1, docs[n - 1])] else rows
  }

  /** Row k of the rows of the first n documents: numbered k + 1, for a
      non-empty document, which it carries, with its calendar year. */
  predicate RowFits(docs: seq<seq<Word>>, n: nat, row: HistoryRow, k: nat)
  {
    && row.id == k + 1 && row.yearIndex < n && row.yearIndex < |docs|
    && row.words == docs[row.yearIndex] && row.words != []
    && row.year == MIN_YEAR + row.yearIndex
  }

  /** The rows are numbered 1, 2, ... over the non-empty documents only,
      each carrying its document and its calendar year. */
  lemma {:induction false} HistoryRowsFields(docs: seq<seq<Word>>, n: nat)
    requires n <= |docs|
    ensures forall k :: 0 <= k < |HistoryRowsAfter(docs, n)| ==> RowFits(docs, n, HistoryRowsAfter(docs, n)[k], k)
  {
    if n > 0 {
      HistoryRowsFields(docs, n - 1);
      var rows := HistoryRowsAfter(docs, n - 1);
      var rows' := HistoryRowsAfter(docs, n);
      forall k | 0 <= k < |rows'|
        ensures RowFits(docs, n, rows'[k], k)
      {
        if k < |rows| {
          assert rows'[k] == rows[k] && RowFits(docs, n - 1, rows[k], k);
        }
      }
    }
  }

  /** The rows come in year order. */
  lemma {:induction false} HistoryRowsOrdered(docs: seq<seq<Word>>, n: nat)
    requires n <= |docs|
    ensures forall i, k :: 0 <= i < k < |HistoryRowsAfter(docs, n)| ==>
              HistoryRowsAfter(docs, n)[i].yearIndex < HistoryRowsAfter(docs, n)[k].yearIndex
  {
    if n > 0 {
      HistoryRowsOrdered(docs, n - 1);
      HistoryRowsFields(docs, n - 1);
      var rows := HistoryRowsAfter(docs, n - 1);
      var rows' := HistoryRowsAfter(docs, n);
      forall i, k | 0 <= i < k < |rows'|
        ensures rows'[i].yearIndex < rows'[k].yearIndex
      {
        assert rows'[i] == rows[i] && RowFits(docs, n - 1, rows[i], i);
        if k < |rows| {
          assert rows'[k] == rows[k];
        }
      }
    }
  }

  /** Every non-empty document has a row. */
  lemma {:induction false} HistoryRowsComplete(docs: seq<seq<Word>>, n: nat, y: nat)
    requires y < n <= |docs| && docs[y] != []
    ensures exists k :: 0 <= k < |HistoryRowsAfter(docs, n)| && HistoryRowsAfter(docs, n)[k].yearIndex == y
  {
    var rows := HistoryRowsAfter(docs, n - 1);
    var rows' := HistoryRowsAfter(docs, n);
    if y == n - 1 {
      assert rows'[|rows|].yearIndex == y;
    } else {
      HistoryRowsComplete(docs, n - 1, y);
      var k :| 0 <= k < |rows| && rows[k].yearIndex == y;
      assert rows'[k] == rows[k];
    }
  }

  /** The history loop of `main` over `year_documents(idx)`. */
  method HistoryRows(docs: seq<seq<Word>>) returns (rows: seq<HistoryRow>)
    ensures rows == HistoryRowsAfter(docs, |docs|)
  {
    rows := [];
    var rowId := 0;
    for year := 0 to |docs|
      invariant rows == HistoryRowsAfter(docs, year) && rowId == |rows|
    {
      if docs[year] != [] {
        rowId := rowId + 1;
        rows := rows + [HistoryRow(rowId, year, MIN_YEAR + year, docs[year])];
      }
    }
  }
}
