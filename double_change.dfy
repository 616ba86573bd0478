/** The "double change" detector shared by `relevance.cpp`
    (`double_change_series_to_csv`) and `process.cpp`
    (`process_series_double_change`): for each year j in [2, MAX_YEARS - 3]
    whose neighbourhood (a, b, c) = (s[j-1], s[j], s[j+1]) passes the guard
    a >= 0, b >= 1e-4, c >= 0, the count of ratio levels 1 .. 9 at which the
    series moves by that ratio (twice in a row) or by the doubled ratio
    (once). */
module DoubleChange {
  import opened Bytes
  import opened StoreTypes

  /** The number of series entries (`MAX_YEARS` of the reader). */
  const MAX_YEARS: nat := READER_MAX_YEARS

  /** The highest count the loop reaches (`while (count <= 8)`). */
  const MAX_COUNT: nat := 9

  /** `1e-4`. */
  const MIN_MIDDLE: real := 0.0001

  /** The ratio test of one pass of the loop, for `count == k`. */
  predicate Changed(a: real, b: real, c: real, k: nat)
  {
    var level := (k + 1) as real;
    var supRatio := 1.0 + 0.1 * level;
    var dsupRatio := 1.0 + 0.2 * level;
    var infRatio := 1.0 - 0.1 * level;
    var dinfRatio := 1.0 / dsupRatio;
    (b > supRatio * a && c > supRatio * b) || b > dsupRatio * a
    || (b < infRatio * a && c < infRatio * b) || b < dinfRatio * a
  }

  /** The neighbourhood guard of position j. */
  predicate Guard(a: real, b: real, c: real)
  {
    a >= 0.0 && b >= MIN_MIDDLE && c >= 0.0
  }

  /** What the count loop computes: the number of consecutive levels, from
      the first, whose test passes, stopping at 9. */
  ghost predicate IsChangeCount(a: real, b: real, c: real, count: nat)
  {
    && count <= MAX_COUNT
    && (forall k :: 0 <= k < count ==> Changed(a, b, c, k))
    && (count < MAX_COUNT ==> !Changed(a, b, c, count))
  }

  /** The count loop, from a level k whose predecessors all passed. */
  function CountFrom(a: real, b: real, c: real, k: nat): (count: nat)
    requires k <= MAX_COUNT
    decreases MAX_COUNT - k
  {
    if k == MAX_COUNT || !Changed(a, b, c, k) then k else CountFrom(a, b, c, k + 1)
  }

  function ChangeCount(a: real, b: real, c: real): nat
  {
    CountFrom(a, b, c, 0)
  }

  lemma {:induction false} CountFromMeaning(a: real, b: real, c: real, k: nat)
    requires k <= MAX_COUNT && forall i :: 0 <= i < k ==> Changed(a, b, c, i)
    ensures IsChangeCount(a, b, c, CountFrom(a, b, c, k))
    decreases MAX_COUNT - k
  {
    if k < MAX_COUNT && Changed(a, b, c, k) {
      CountFromMeaning(a, b, c, k + 1);
    }
  }

  /** The count is the only one meeting the description: at most 9, all
      levels below it pass, and it stops at the first that fails. */
  lemma ChangeCountMeaning(a: real, b: real, c: real, count: nat)
    ensures IsChangeCount(a, b, c, ChangeCount(a, b, c))
    ensures IsChangeCount(a, b, c, count) ==> count == ChangeCount(a, b, c)
  {
    CountFromMeaning(a, b, c, 0);
  }

  /** A flat neighbourhood (a = b = c > 0) never changes. */
  lemma FlatIsZero(b: real)
    requires b > 0.0
    ensures ChangeCount(b, b, b) == 0
  {
    assert !Changed(b, b, b, 0) by {
      assert b <= 1.1 * b && b <= 1.2 * b && b >= 0.9 * b;
      assert 1.0 / 1.2 * b <= b;
    }
  }

  /** The count loop of one position. */
  method CountChanges(a: real, b: real, c: real) returns (count: nat)
    ensures IsChangeCount(a, b, c, count)
  {
    count := 0;
    while count <= 8
      invariant count <= MAX_COUNT
      invariant forall k :: 0 <= k < count ==> Changed(a, b, c, k)
    {
      if Changed(a, b, c, count) {
        count := count + 1;
      } else {
        break;
      }
    }
  }

  /** The positions the detector looks at. */
  predicate Inner(j: nat)
  {
    2 <= j < MAX_YEARS - 2
  }

  /** The count of position j of a series of MAX_YEARS values: 0 outside the
      inner positions or when the guard fails. */
  function CountAt(s: seq<real>, j: nat): int
    requires |s| == MAX_YEARS && j < MAX_YEARS
  {
    if Inner(j) && Guard(s[j - 1], s[j], s[j + 1]) then ChangeCount(s[j - 1], s[j], s[j + 1]) else 0
  }

  /** Every count is in [0, 9], and only inner positions that pass the
      guard can have a non-zero one. */
  lemma CountAtBounds(s: seq<real>, j: nat)
    requires |s| == MAX_YEARS && j < MAX_YEARS
    ensures 0 <= CountAt(s, j) <= MAX_COUNT
    ensures CountAt(s, j) != 0 ==> Inner(j) && Guard(s[j - 1], s[j], s[j + 1])
  {
    if Inner(j) && Guard(s[j - 1], s[j], s[j + 1]) {
      ChangeCountMeaning(s[j - 1], s[j], s[j + 1], 0);
    }
  }

  /** `double_change_series_to_csv`: the row of counts it emits, from
      zeroed counts. */
  method DoubleChangeRow(series: seq<real>) returns (counts: seq<int>)
    requires |series| == MAX_YEARS
    ensures |counts| == MAX_YEARS
    ensures forall j :: 0 <= j < MAX_YEARS ==> counts[j] == CountAt(series, j)
  {
    var row := new int[MAX_YEARS](_ => 0);
    var j := 2;
    while j < MAX_YEARS - 2
      invariant 2 <= j <= MAX_YEARS - 2
      invariant forall i :: 0 <= i < j ==> row[i] == CountAt(series, i)
      invariant forall i :: j <= i < MAX_YEARS ==> row[i] == 0
    {
      var a, b, c := series[j - 1], series[j], series[j + 1];
      if a >= 0.0 && b >= MIN_MIDDLE && c >= 0.0 {
        var count := CountChanges(a, b, c);
        ChangeCountMeaning(a, b, c, count);
        row[j] := count;
      }
      j := j + 1;
    }
    counts := row[..];
  }

  /** A line `word \t 1500 + j \t count` of the zeitgeist summary. */
  datatype Line = Line(word: seq<byte>, year: nat, count: int)

  /** The lines position j contributes: one when its count is positive. */
  function LinesAt(word: seq<byte>, s: seq<real>, j: nat): seq<Line>
    requires |s| == MAX_YEARS && j < MAX_YEARS
  {
    if CountAt(s, j) > 0 then [Line(word, MIN_YEAR + j, CountAt(s, j))] else []
  }

  /** The lines of positions [2, hi). */
  function LinesUpTo(word: seq<byte>, s: seq<real>, hi: nat): seq<Line>
    requires |s| == MAX_YEARS && hi <= MAX_YEARS
  {
    if hi <= 2 then [] else LinesUpTo(word, s, hi - 1) + LinesAt(word, s, hi - 1)
  }

  /** Every emitted line is for an inner position with a positive count,
      which it carries, in [1, 9]. */
  lemma {:induction false} LinesUpToFields(word: seq<byte>, s: seq<real>, hi: nat)
    requires |s| == MAX_YEARS && hi <= MAX_YEARS
    ensures forall l <- LinesUpTo(word, s, hi) ::
              l.word == word && MIN_YEAR + 2 <= l.year < MIN_YEAR + hi
              && 0 < l.count <= MAX_COUNT && l.count == CountAt(s, l.year - MIN_YEAR)
  {
    if hi > 2 {
      LinesUpToFields(word, s, hi - 1);
      CountAtBounds(s, hi - 1);
    }
  }

  /** Every position with a positive count is emitted. */
  lemma {:induction false} LinesUpToComplete(word: seq<byte>, s: seq<real>, hi: nat)
    requires |s| == MAX_YEARS && hi <= MAX_YEARS
    ensures forall j :: 2 <= j < hi && CountAt(s, j) > 0 ==> Line(word, MIN_YEAR + j, CountAt(s, j)) in LinesUpTo(word, s, hi)
  {
    if hi > 2 {
      LinesUpToComplete(word, s, hi - 1);
    }
  }

  /** The lines come in increasing year order. */
  lemma {:induction false} LinesUpToOrdered(word: seq<byte>, s: seq<real>, hi: nat)
    requires |s| == MAX_YEARS && hi <= MAX_YEARS
    ensures forall i, k :: 0 <= i < k < |LinesUpTo(word, s, hi)| ==> LinesUpTo(word, s, hi)[i].year < LinesUpTo(word, s, hi)[k].year
  {
    if hi > 2 {
      LinesUpToOrdered(word, s, hi - 1);
      LinesUpToFields(word, s, hi - 1);
      var prev := LinesUpTo(word, s, hi - 1);
      forall l <- prev
        ensures l.year < MIN_YEAR + hi - 1
      {
      }
    }
  }

  /** `process_series_double_change`: the lines written to the summary, for
      the match counts of one word. */
  method DoubleChangeLines(word: seq<byte>, matchCounts: seq<real>) returns (lines: seq<Line>)
    requires |matchCounts| == MAX_YEARS
    ensures lines == LinesUpTo(word, matchCounts, MAX_YEARS - 2)
  {
    lines := [];
    var j := 2;
    while j < MAX_YEARS - 2
      invariant 2 <= j <= MAX_YEARS - 2
      invariant lines == LinesUpTo(word, matchCounts, j)
    {
      var x, y, z := matchCounts[j - 1], matchCounts[j], matchCounts[j + 1];
      if x >= 0.0 && y >= MIN_MIDDLE && z >= 0.0 {
        var count := CountChanges(x, y, z);
        ChangeCountMeaning(x, y, z, count);
        if count > 0 {
          lines := lines + [Line(word, MIN_YEAR + j, count)];
        }
      }
      j := j + 1;
    }
  }
}
