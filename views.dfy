/** The year handling of the site's graph view (`website/main/views.py`):
    clamping a requested year into the years the store covers, turning a
    row of a sparse relevance matrix into a dense series of 509 entries, and
    the window of years a response carries.  The Django request, the JSON
    response and the rescaling of the series are not part of this model. */
module Views {
  import opened Wrappers
  import opened PyStrings

  /** The first and last year of every series. */
  const FIRST_YEAR: int := 1500
  const LAST_YEAR: int := 2008

  /** The length of a dense series (`509 * [ 0 ]`). */
  const SERIES_LENGTH: nat := 509

  /** The distance between two years. */
  function Distance(a: int, b: int): nat
  {
    if a < b then b - a else a - b
  }

  function Max(a: int, b: int): int
  {
    if a < b then b else a
  }

  function Min(a: int, b: int): int
  {
    if a < b then a else b
  }

  /** `get_actual_year(year)`: the year of [1500, 2008] nearest to the one
      requested; a year in the range is kept. */
  function GetActualYear(year: int): (r: int)
    ensures FIRST_YEAR <= r <= LAST_YEAR
    ensures FIRST_YEAR <= year <= LAST_YEAR ==> r == year
    ensures forall y :: FIRST_YEAR <= y <= LAST_YEAR ==> Distance(r, year) <= Distance(y, year)
  {
    if year < 1500 then 1500
    else if year > 2008 then 2008
    else year
  }

  /** Clamping keeps the order of two years, and clamping twice is clamping
      once. */
  lemma GetActualYearMonotone(x: int, y: int)
    requires x <= y
    ensures GetActualYear(x) <= GetActualYear(y)
    ensures GetActualYear(GetActualYear(x)) == GetActualYear(x)
  {
  }

  /** The years of a response from the requested ones: both clamped, and
      the end moved up to the start when it lies before it. */
  function NormaliseYears(yearStart: int, yearEnd: int): (r: (int, int))
    ensures FIRST_YEAR <= r.0 <= r.1 <= LAST_YEAR
    ensures r.0 == GetActualYear(yearStart) && r.1 == Max(GetActualYear(yearStart), GetActualYear(yearEnd))
    ensures FIRST_YEAR <= yearStart <= yearEnd <= LAST_YEAR ==> r == (yearStart, yearEnd)
  {
    var start := GetActualYear(yearStart);
    var end := GetActualYear(yearEnd);
    if end < start then (start, start) else (start, end)
  }

  /** `s[lo:hi]` for bounds that are not negative: both are cut down to the
      length, and the slice is empty when hi is not above lo. */
  function PySlice<T>(s: seq<T>, lo: nat, hi: nat): (r: seq<T>)
    ensures |r| <= |s| && (lo < hi ==> |r| == Min(hi, |s|) - Min(lo, |s|)) && (hi <= lo ==> r == [])
    ensures forall k :: 0 <= k < |r| ==> lo + k < |s| && r[k] == s[lo + k]
    ensures lo <= hi <= |s| ==> r == s[lo..hi]
  {
    var a := if lo < |s| then lo else |s|;
    var b := if hi < a then a else if hi < |s| then hi else |s|;
    s[a..b]
  }

  /** `series[(year_start - 1500):(year_end - 1500 + 1)]` after the years
      have been normalised: the entries of the years from the start to the
      end. */
  function YearWindow<T>(series: seq<T>, yearStart: int, yearEnd: int): (r: seq<T>)
    ensures var (s, e) := NormaliseYears(yearStart, yearEnd);
            && (|series| == SERIES_LENGTH ==> |r| == e - s + 1)
            && forall k :: 0 <= k < |r| ==> s - FIRST_YEAR + k < |series| && r[k] == series[s - FIRST_YEAR + k]
  {
    var (s, e) := NormaliseYears(yearStart, yearEnd);
    PySlice(series, s - FIRST_YEAR, e - FIRST_YEAR + 1)
  }

  /** `int(x)` of a float: rounding toward zero. */
  function Trunc(x: real): (r: int)
    ensures 0.0 <= x ==> r >= 0 && r as real <= x < r as real + 1.0
    ensures x < 0.0 ==> r <= 0 && r as real - 1.0 < x <= r as real
  {
    if x >= 0.0 then x.Floor else -((-x).Floor)
  }

  /** The list of `row_to_series` after the first n entries of the row
      (`data[i]` at column `indices[i]`) have been written:
      `IndexError` for an entry without data or a column outside the list. */
  function RowSeriesAfter(indices: seq<int>, data: seq<real>, n: nat): (r: Result<seq<int>, PyError>)
    requires n <= |indices|
    ensures r.Success? ==> |r.value| == SERIES_LENGTH
    ensures r.Failure? ==> r.error == IndexError
  {
    if n == 0 then Success(seq(SERIES_LENGTH, _ => 0))
    else
      match RowSeriesAfter(indices, data, n - 1)
      case Failure(e) => Failure(e)
      case Success(series) =>
        if n - 1 >= |data| then Failure(IndexError)
        else
          match PyIndex(indices[n - 1], |series|)
          case None => Failure(IndexError)
          case Some(j) => Success(series[j := Trunc(data[n - 1])])
  }

  function RowSeries(indices: seq<int>, data: seq<real>): (r: Result<seq<int>, PyError>)
    ensures r.Success? ==> |r.value| == SERIES_LENGTH
    ensures r.Failure? ==> r.error == IndexError
  {
    RowSeriesAfter(indices, data, |indices|)
  }

  /** A column Python's list indexing accepts for a list of 509 entries. */
  predicate ValidColumn(index: int)
  {
    -(SERIES_LENGTH as int) <= index < SERIES_LENGTH
  }

  /** The row converts exactly when every written entry has data and a
      valid column. */
  lemma {:induction false} RowSeriesAfterSucceeds(indices: seq<int>, data: seq<real>, n: nat)
    requires n <= |indices|
    ensures RowSeriesAfter(indices, data, n).Success? <==> n <= |data| && forall i :: 0 <= i < n ==> ValidColumn(indices[i])
  {
    if n > 0 {
      RowSeriesAfterSucceeds(indices, data, n - 1);
    }
  }

  lemma RowSeriesSucceeds(indices: seq<int>, data: seq<real>)
    ensures RowSeries(indices, data).Success? <==> |indices| <= |data| && forall i :: 0 <= i < |indices| ==> ValidColumn(indices[i])
  {
    RowSeriesAfterSucceeds(indices, data, |indices|);
  }

  /** The columns of a sparse row: distinct and within the list. */
  ghost predicate SparseColumns(indices: seq<int>)
  {
    && (forall i :: 0 <= i < |indices| ==> 0 <= indices[i] < SERIES_LENGTH)
    && (forall i, k :: 0 <= i < k < |indices| ==> indices[i] != indices[k])
  }

  lemma {:induction false} RowSeriesAfterDense(indices: seq<int>, data: seq<real>, n: nat)
    requires n <= |indices| <= |data| && SparseColumns(indices)
    ensures RowSeriesAfter(indices, data, n).Success?
    ensures var s := RowSeriesAfter(indices, data, n).value;
            && (forall i :: 0 <= i < n ==> s[indices[i]] == Trunc(data[i]))
            && (forall j :: 0 <= j < SERIES_LENGTH && j !in indices[..n] ==> s[j] == 0)
  {
    if n > 0 {
      RowSeriesAfterDense(indices, data, n - 1);
      assert indices[..n] == indices[..n - 1] + [indices[n - 1]];
    }
  }

  /** For a sparse row with distinct columns in range, the series holds the
      truncated `data[i]` at column `indices[i]` and 0 everywhere else. */
  lemma RowSeriesDense(indices: seq<int>, data: seq<real>)
    requires |indices| <= |data| && SparseColumns(indices)
    ensures RowSeries(indices, data).Success?
    ensures var s := RowSeries(indices, data).value;
            && |s| == SERIES_LENGTH
            && (forall i :: 0 <= i < |indices| ==> s[indices[i]] == Trunc(data[i]))
            && (forall j :: 0 <= j < SERIES_LENGTH && j !in indices ==> s[j] == 0)
  {
    RowSeriesAfterDense(indices, data, |indices|);
    assert indices[..|indices|] == indices;
  }

  /** `row_to_series(row)`: a list of 509 zeros, then `series[index] =
      int(data[i])` for each entry of the row. */
  method RowToSeries(indices: seq<int>, data: seq<real>) returns (r: Result<seq<int>, PyError>)
    ensures r == RowSeries(indices, data)
  {
    var series := new int[SERIES_LENGTH](_ => 0);
    assert series[..] == seq(SERIES_LENGTH, _ => 0);
    for i := 0 to |indices|
      invariant RowSeriesAfter(indices, data, i) == Success(series[..])
    {
      if i >= |data| {
        r := Failure(IndexError);
        FailureStays(indices, data, i + 1);
        return;
      }
      var j := PyIndex(indices[i], series.Length);
      if j.None? {
        r := Failure(IndexError);
        FailureStays(indices, data, i + 1);
        return;
      }
      series[j.value] := Trunc(data[i]);
    }
    r := Success(series[..]);
  }

  /** Once an entry fails the conversion fails. */
  lemma {:induction false} FailureStays(indices: seq<int>, data: seq<real>, n: nat)
    requires n <= |indices| && RowSeriesAfter(indices, data, n).Failure?
    ensures RowSeries(indices, data) == RowSeriesAfter(indices, data, n)
    decreases |indices| - n
  {
    if n < |indices| {
      FailureStays(indices, data, n + 1);
    }
  }
}
