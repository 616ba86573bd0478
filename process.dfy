/** The zeitgeist summary stage of `process.cpp`: the emission filters of
    `process_series` (linear-model ranges) and of `fit_gaussians`, and the
    word loop of `main` with its two filters.  The double-change stage
    (`process_series_double_change`) is `DoubleChange.DoubleChangeLines`. */
module Process {
  import opened Bytes
  import DC = DoubleChange
  import GM = GaussianModel
  import GF = GaussianFinder
  import GR = GaussianRelevance
  import RG = RelevanceGaussians
  import SA = StaticArrays
  import Sorting

  /** `score_threshold`. */
  const SCORE_THRESHOLD: int := 3

  /** The first year whose lines are written. */
  const FIRST_EMITTED_YEAR: nat := 1750

  /** `1 << 20`: the least total match count of a processed word. */
  const MIN_TOTAL_MATCH: nat := 0x10_0000

  /** `'_'`. */
  const UNDERSCORE: byte := 95

  type Line = DC.Line

  function Abs(x: real): real
  {
    if x < 0.0 then -x else x
  }

  /** `2 * (score_threshold - (-log(fabs(slope))))`, with the natural
      logarithm a parameter; `None` for a zero slope, whose score is -inf. */
  function Score(slope: real, ln: real -> real): (r: Option)
  {
    if slope == 0.0 then Option.None
    else Option.Some(2.0 * (SCORE_THRESHOLD as real - -ln(Abs(slope))))
  }

  datatype Option = None | Some(value: real)

  /** A range is written when its score is at least 1 and it starts in
      1750 or later. */
  predicate Emits(e: SA.RangeEntry, ln: real -> real)
  {
    Score(e.slope, ln).Some? && Score(e.slope, ln).value >= 1.0 && e.left >= FIRST_EMITTED_YEAR
  }

  /** The lines of one range: `word \t j \t (int) score` for each j in
      [left, right]. */
  function RangeLines(word: seq<byte>, e: SA.RangeEntry, ln: real -> real): seq<Line>
  {
    if Emits(e, ln) && e.left <= e.right then
      seq(e.right - e.left + 1, (k: int) requires 0 <= k => DC.Line(word, e.left + k, GR.Trunc(Score(e.slope, ln).value)))
    else []
  }

  /** A range that passes both gates gives one line per year of
      [left, right], in order, each with the truncated score, at least 1; a
      range that fails either gate gives none. */
  lemma RangeLinesMeaning(word: seq<byte>, e: SA.RangeEntry, ln: real -> real)
    ensures forall l <- RangeLines(word, e, ln) ::
              l.word == word && e.left <= l.year <= e.right && Emits(e, ln)
              && l.count == GR.Trunc(Score(e.slope, ln).value) && l.count >= 1
    ensures |RangeLines(word, e, ln)| == if !Emits(e, ln) || e.right < e.left then 0 else e.right - e.left + 1
    ensures forall k :: 0 <= k < |RangeLines(word, e, ln)| ==> RangeLines(word, e, ln)[k].year == e.left + k
  {
    if Emits(e, ln) {
      GR.TruncTowardZero(Score(e.slope, ln).value);
    }
  }

  /** The lines of the first n ranges. */
  function LinearLines(word: seq<byte>, ranges: seq<SA.RangeEntry>, n: nat, ln: real -> real): seq<Line>
    requires n <= |ranges|
  {
    if n == 0 then [] else LinearLines(word, ranges, n - 1, ln) + RangeLines(word, ranges[n - 1], ln)
  }

  /** Every line written comes from a range that passed both gates, carries
      a year of that range and its truncated score, at least 1. */
  lemma {:induction false} LinearLinesFrom(word: seq<byte>, ranges: seq<SA.RangeEntry>, n: nat, ln: real -> real)
    requires n <= |ranges|
    ensures forall l <- LinearLines(word, ranges, n, ln) ::
              exists e <- ranges[..n] :: Emits(e, ln) && e.left <= l.year <= e.right
                                         && l.count == GR.Trunc(Score(e.slope, ln).value) >= 1
  {
    if n > 0 {
      LinearLinesFrom(word, ranges, n - 1, ln);
      RangeLinesMeaning(word, ranges[n - 1], ln);
      assert forall e <- ranges[..n - 1] :: e in ranges[..n];
      assert ranges[n - 1] in ranges[..n];
    }
  }

  /** Every year of every range that passes both gates is written. */
  lemma {:induction false} LinearLinesComplete(word: seq<byte>, ranges: seq<SA.RangeEntry>, n: nat, ln: real -> real,
                                               i: nat, y: nat)
    requires i < n <= |ranges| && Emits(ranges[i], ln) && ranges[i].left <= y <= ranges[i].right
    ensures DC.Line(word, y, GR.Trunc(Score(ranges[i].slope, ln).value)) in LinearLines(word, ranges, n, ln)
  {
    if i == n - 1 {
      RangeLinesHas(word, ranges[i], ln, y);
    } else {
      LinearLinesComplete(word, ranges, n - 1, ln, i, y);
    }
  }

  lemma RangeLinesHas(word: seq<byte>, e: SA.RangeEntry, ln: real -> real, y: nat)
    requires Emits(e, ln) && e.left <= y <= e.right
    ensures DC.Line(word, y, GR.Trunc(Score(e.slope, ln).value)) in RangeLines(word, e, ln)
  {
    assert RangeLines(word, e, ln)[y - e.left] == DC.Line(word, y, GR.Trunc(Score(e.slope, ln).value));
  }

  /** The lines of one range, written year by year. */
  method WriteRange(word: seq<byte>, e: SA.RangeEntry, ln: real -> real) returns (lines: seq<Line>)
    ensures lines == RangeLines(word, e, ln)
  {
    lines := [];
    var score := if e.slope == 0.0 then 0.0 else 2.0 * (SCORE_THRESHOLD as real - -ln(Abs(e.slope)));
    if e.slope != 0.0 && score >= 1.0 && e.left >= FIRST_EMITTED_YEAR {
      var j := e.left;
      while j <= e.right
        invariant e.left <= j <= if e.right < e.left then e.left else e.right + 1
        invariant lines == seq(j - e.left, (k: int) requires 0 <= k => DC.Line(word, e.left + k, GR.Trunc(score)))
      {
        lines := lines + [DC.Line(word, j, GR.Trunc(score))];
        j := j + 1;
      }
    }
  }

  /** `process_series(word, T, fdf, zeitgeist)`: the ranges are the
      contents of the static array that `normalize_generate_ranges` filled. */
  method ProcessSeries(word: seq<byte>, ranges: SA.StaticArray, ln: real -> real) returns (lines: seq<Line>)
    requires ranges.Valid()
    ensures lines == LinearLines(word, ranges.Contents(), ranges.size, ln)
  {
    lines := [];
    var i := 0;
    while i < ranges.size
      invariant 0 <= i <= ranges.size
      invariant lines == LinearLines(word, ranges.Contents(), i, ln)
    {
      var more := WriteRange(word, ranges.buffer[i], ln);
      lines := lines + more;
      i := i + 1;
    }
  }

  /** The lines `fit_gaussians` writes for the pairs of `relevant_counts`:
      those whose first component is at least 1750. */
  function GaussianLines(word: seq<byte>, counts: seq<GR.YearCount>): (r: seq<Line>)
    ensures forall l <- r :: l.year >= FIRST_EMITTED_YEAR && l.word == word && (l.year, l.count) in counts
    ensures forall p <- counts :: p.0 >= FIRST_EMITTED_YEAR ==> DC.Line(word, p.0, p.1) in r
  {
    if counts == [] then []
    else
      var rest := GaussianLines(word, counts[1..]);
      assert forall p <- counts[1..] :: p in counts;
      if counts[0].0 >= FIRST_EMITTED_YEAR then [DC.Line(word, counts[0].0, counts[0].1)] + rest else rest
  }

  /** The first component of a pair is a series index, below MAX_YEARS =
      509 < 1750, so `fit_gaussians` never writes a line. */
  lemma NoGaussianLines(word: seq<byte>, gs: seq<GF.GaussianEntry>, widening: real, pdf: (real, real) -> real)
    requires GR.Admissible(gs, widening, pdf)
    ensures GaussianLines(word, GR.Relevant(gs, |gs|, widening, pdf).counts) == []
  {
    GR.CountsMeaning(gs, |gs|, widening, pdf);
    GaussianLinesEarly(word, GR.Relevant(gs, |gs|, widening, pdf).counts);
  }

  lemma {:induction false} GaussianLinesEarly(word: seq<byte>, counts: seq<GR.YearCount>)
    requires forall p <- counts :: p.0 < FIRST_EMITTED_YEAR
    ensures GaussianLines(word, counts) == []
  {
    if counts != [] {
      assert counts[0] in counts;
      GaussianLinesEarly(word, counts[1..]);
    }
  }

  /** `fit_gaussians(word, series, inf, sup, widening, zeitgeist)`, as
      `main` calls it: window 2, so inf = 2, sup = MAX_YEARS - 2, and
      widening 2. */
  method FitGaussians(word: seq<byte>, series: array<real>, ps: array2<real>, sqrt: real -> real,
                      pdf: (real, real) -> real) returns (lines: seq<Line>)
    requires series.Length == GM.MAX_YEARS
    requires ps.Length0 == GM.MAX_YEARS + 1 && ps.Length1 == GM.NUM_MOMENTS && GM.PrefixTable(ps, GM.PowerColumns())
    requires RG.PeakNonZero(pdf)
    ensures lines == []
  {
    var gaussians := GF.SelectGaussians(series, ps, 2, GM.MAX_YEARS - 2, sqrt, pdf);
    RG.CandidatesInRange(series[..], 2, GM.MAX_YEARS - 2, GF.FINDER_SPAN, sqrt, pdf);
    assert GR.Admissible(gaussians, 2.0, pdf);
    var counts := GR.RelevantGaussians(gaussians, 2.0, pdf);
    lines := [];
    var k := 0;
    while k < |counts|
      invariant 0 <= k <= |counts|
      invariant lines + GaussianLines(word, counts[k..]) == GaussianLines(word, counts)
    {
      assert counts[k..][1..] == counts[k + 1..];
      if counts[k].0 >= FIRST_EMITTED_YEAR {
        lines := lines + [DC.Line(word, counts[k].0, counts[k].1)];
      }
      k := k + 1;
    }
    NoGaussianLines(word, gaussians, 2.0, pdf);
  }

  /** The two filters of `main`: a word containing '_' or with a total
      match count below 2^20 is skipped. */
  predicate Skipped(word: seq<byte>, totalMatchCount: nat)
  {
    UNDERSCORE in word || totalMatchCount < MIN_TOTAL_MATCH
  }

  /** What the loop did: the word indices read, in order, and the code
      `main` returns. */
  datatype Outcome = Outcome(processed: seq<nat>, err: int)

  /** The loop from word i on: skipped words are passed over, and the
      first `read_table` failure ends the loop with its code. */
  function Run(words: seq<seq<byte>>, totals: seq<nat>, readTable: nat -> int, i: nat): (o: Outcome)
    requires |words| == |totals| && i <= |words|
    decreases |words| - i
  {
    if i == |words| then Outcome([], 0)
    else if Skipped(words[i], totals[i]) then Run(words, totals, readTable, i + 1)
    else if readTable(i) != 0 then Outcome([i], readTable(i))
    else var rest := Run(words, totals, readTable, i + 1); Outcome([i] + rest.processed, rest.err)
  }

  /** The processed indices increase, lie in [i, |words|) and belong to
      words that pass both filters. */
  lemma {:induction false} RunProcessesUnskipped(words: seq<seq<byte>>, totals: seq<nat>, readTable: nat -> int, i: nat)
    requires |words| == |totals| && i <= |words|
    ensures forall k :: 0 <= k < |Run(words, totals, readTable, i).processed| ==>
              var j := Run(words, totals, readTable, i).processed[k];
              i <= j < |words| && !Skipped(words[j], totals[j])
    ensures forall a, b :: 0 <= a < b < |Run(words, totals, readTable, i).processed| ==>
              Run(words, totals, readTable, i).processed[a] < Run(words, totals, readTable, i).processed[b]
    decreases |words| - i
  {
    if i < |words| {
      RunProcessesUnskipped(words, totals, readTable, i + 1);
    }
  }

  /** A run that ends without error has read every word passing both
      filters, and every read succeeded; a failing run ends at the index
      whose read failed. */
  lemma {:induction false} RunMeaning(words: seq<seq<byte>>, totals: seq<nat>, readTable: nat -> int, i: nat)
    requires |words| == |totals| && i <= |words|
    ensures var o := Run(words, totals, readTable, i);
            (o.err == 0 ==> forall j :: i <= j < |words| && !Skipped(words[j], totals[j]) ==> j in o.processed && readTable(j) == 0)
            && (o.err != 0 ==> |o.processed| > 0 && readTable(o.processed[|o.processed| - 1]) == o.err)
    decreases |words| - i
  {
    if i < |words| {
      RunMeaning(words, totals, readTable, i + 1);
    }
  }

  function Prepend(h: seq<nat>, o: Outcome): Outcome
  {
    Outcome(h + o.processed, o.err)
  }

  /** The word loop of `main`, after `init_dictreader` returned `initErr`.
      `words` and `totals` are the reader's words and their total match
      counts. */
  method ProcessMain(words: seq<seq<byte>>, totals: seq<nat>, initErr: int, readTable: nat -> int)
    returns (processed: seq<nat>, err: int)
    requires |words| == |totals|
    ensures initErr != 0 ==> processed == [] && err == initErr
    ensures initErr == 0 ==> Outcome(processed, err) == Run(words, totals, readTable, 0)
  {
    if initErr != 0 {
      return [], initErr;
    }
    processed, err := [], 0;
    var i := 0;
    while i < |words|
      invariant 0 <= i <= |words| && err == 0
      invariant Run(words, totals, readTable, 0) == Prepend(processed, Run(words, totals, readTable, i))
    {
      if !Skipped(words[i], totals[i]) {
        err := readTable(i);
        processed := processed + [i];
        if err != 0 {
          return;
        }
      }
      i := i + 1;
    }
  }
}
