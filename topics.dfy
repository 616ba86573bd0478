/** `topics.py`: the helpers that turn a topic model's output into the
    historic-topics report — run-length compression of a topic's years, its
    text form, the choice of the model directory, and the parsing of the
    topic summary and of the document-topic distributions.  Directory
    listings and files are their contents; `int()` and `float()` on a token
    are the parameters `parseInt` and `parseFloat`. */
module Topics {
  import opened Wrappers
  import opened PyStrings

  // ---------------------------------------------------------- to_range_list

  /** The loop state of `to_range_list`: the closed runs and the open one. */
  datatype RunState = RunState(ranges: seq<(int, int)>, start: Option<int>, prev: Option<int>)

  /** One value: it continues the open run when it is one more than the
      previous value; otherwise the open run is closed and a new one opened. */
  function RunStep(st: RunState, value: int): RunState
  {
    if st.prev != Some(value - 1) then
      RunState(if st.start.Some? && st.prev.Some? then st.ranges + [(st.start.value, st.prev.value)] else st.ranges,
               Some(value), Some(value))
    else st.(prev := Some(value))
  }

  function RunsAfter(values: seq<int>, n: nat): RunState
    requires n <= |values|
  {
    if n == 0 then RunState([], None, None) else RunStep(RunsAfter(values, n - 1), values[n - 1])
  }

  /** The closing of the open run after the loop. */
  function Close(st: RunState): seq<(int, int)>
  {
    if st.start.Some? && st.prev.Some? then st.ranges + [(st.start.value, st.prev.value)] else st.ranges
  }

  /** `to_range_list(values)`. */
  function RangeList(values: seq<int>): (r: seq<(int, int)>)
    ensures r == [] <==> values == []
    ensures forall i :: 0 <= i < |r| ==> r[i].0 <= r[i].1
  {
    RunsAfterInvariant(values, |values|);
    Close(RunsAfter(values, |values|))
  }

  /** The integers a, a + 1, ..., b. */
  function Interval(a: int, b: int): (r: seq<int>)
    ensures |r| == if a <= b then b - a + 1 else 0
    decreases b - a
  {
    if a > b then [] else [a] + Interval(a + 1, b)
  }

  /** The values the runs stand for, in order. */
  function Flatten(ranges: seq<(int, int)>): seq<int>
  {
    if ranges == [] then [] else Flatten(ranges[..|ranges| - 1]) + Interval(ranges[|ranges| - 1].0, ranges[|ranges| - 1].1)
  }

  /** Runs are non-empty and no run continues the one before it. */
  ghost predicate MaximalRuns(ranges: seq<(int, int)>)
  {
    && (forall i :: 0 <= i < |ranges| ==> ranges[i].0 <= ranges[i].1)
    && (forall i :: 0 < i < |ranges| ==> ranges[i].0 != ranges[i - 1].1 + 1)
  }

  lemma {:induction false} IntervalExtend(a: int, b: int)
    requires a <= b + 1
    ensures Interval(a, b + 1) == Interval(a, b) + [b + 1]
    decreases b - a
  {
    if a <= b {
      IntervalExtend(a + 1, b);
    }
  }

  /** The invariant of the loop: the closed runs and the open one cover the
      values read, in order. */
  ghost predicate RunInvariant(values: seq<int>, n: nat, st: RunState)
    requires n <= |values|
  {
    && (n == 0 <==> st.start.None?) && (st.start.None? <==> st.prev.None?)
    && (n == 0 ==> st.ranges == [])
    && (n > 0 ==>
          && st.start.value <= st.prev.value && st.prev.value == values[n - 1]
          && MaximalRuns(st.ranges + [(st.start.value, st.prev.value)])
          && Flatten(st.ranges + [(st.start.value, st.prev.value)]) == values[..n])
  }

  lemma {:induction false} RunsAfterInvariant(values: seq<int>, n: nat)
    requires n <= |values|
    ensures RunInvariant(values, n, RunsAfter(values, n))
  {
    if n > 0 {
      RunsAfterInvariant(values, n - 1);
      RunStepInvariant(values, n - 1, RunsAfter(values, n - 1));
    }
  }

  lemma RunStepInvariant(values: seq<int>, n: nat, st: RunState)
    requires n < |values| && RunInvariant(values, n, st)
    ensures RunInvariant(values, n + 1, RunStep(st, values[n]))
  {
    if st.prev != Some(values[n] - 1) {
      RunStepOpen(values, n, st);
    } else {
      RunStepExtend(values, n, st);
    }
  }

  /** A value that does not continue the open run opens a new one. */
  lemma RunStepOpen(values: seq<int>, n: nat, st: RunState)
    requires n < |values| && RunInvariant(values, n, st) && st.prev != Some(values[n] - 1)
    ensures RunInvariant(values, n + 1, RunStep(st, values[n]))
  {
    var v := values[n];
    var closed := RunStep(st, v).ranges;
    assert values[..n + 1] == values[..n] + [v];
    assert closed == (if n > 0 then st.ranges + [(st.start.value, st.prev.value)] else []);
    assert (closed + [(v, v)])[..|closed|] == closed;
    assert Interval(v, v) == [v];
    assert Flatten(closed + [(v, v)]) == Flatten(closed) + [v];
  }

  /** A value one above the previous one extends the open run. */
  lemma RunStepExtend(values: seq<int>, n: nat, st: RunState)
    requires n < |values| && RunInvariant(values, n, st) && st.prev == Some(values[n] - 1)
    ensures RunInvariant(values, n + 1, RunStep(st, values[n]))
  {
    var v := values[n];
    var open := st.ranges + [(st.start.value, st.prev.value)];
    var open' := st.ranges + [(st.start.value, v)];
    assert values[..n + 1] == values[..n] + [v];
    assert open'[..|st.ranges|] == open[..|st.ranges|] == st.ranges;
    IntervalExtend(st.start.value, v - 1);
    assert Flatten(open') == Flatten(st.ranges) + Interval(st.start.value, v);
  }

  /** `to_range_list` cuts any list of integers into maximal runs of
      consecutive values: each run (a, b) has a <= b, the runs stand for
      exactly the input in order, and no run continues the one before it;
      the empty list gives no runs. */
  lemma RangeListMeaning(values: seq<int>)
    ensures MaximalRuns(RangeList(values))
    ensures Flatten(RangeList(values)) == values
    ensures RangeList(values) == [] <==> values == []
  {
    RunsAfterInvariant(values, |values|);
    assert values[..|values|] == values;
  }

  /** The loop of `to_range_list`. */
  method ToRangeList(values: seq<int>) returns (ranges: seq<(int, int)>)
    ensures ranges == RangeList(values)
  {
    ranges := [];
    var startValue: Option<int> := None;
    var prevValue: Option<int> := None;
    for n := 0 to |values|
      invariant RunsAfter(values, n) == RunState(ranges, startValue, prevValue)
    {
      var value := values[n];
      if prevValue != Some(value - 1) {
        if startValue.Some? && prevValue.Some? {
          ranges := ranges + [(startValue.value, prevValue.value)];
        }
        startValue := Some(value);
      }
      prevValue := Some(value);
    }
    if startValue.Some? && prevValue.Some? {
      ranges := ranges + [(startValue.value, prevValue.value)];
    }
  }

  // ---------------------------------------------------------- range_to_str

  /** `range_to_str((a, b))`. */
  function RangeToStr(r: (int, int)): (s: seq<char>)
    ensures s != []
    ensures r.0 >= 0 && r.1 >= 0 ==> ('-' in s <==> r.0 != r.1)
  {
    var text := if r.0 != r.1 then IntToString(r.0) + ['-'] + IntToString(r.1) else IntToString(r.0);
    NoDashNonNegative(r.0);
    NoDashNonNegative(r.1);
    text
  }

  /** `str(i)` of an integer that is not negative holds no '-'. */
  lemma NoDashNonNegative(i: int)
    ensures i >= 0 ==> '-' !in IntToString(i)
  {
    if i >= 0 {
      NoDash(NatToString(i));
    }
  }

  /** For non-negative bounds the text reads back as the run: split at
      '-', a proper run gives its two bounds and a one-value run its value. */
  lemma RangeToStrParse(a: nat, b: nat)
    ensures var parts := Split(RangeToStr((a, b)), '-');
            && (a != b ==> |parts| == 2 && IsDigits(parts[0]) && DigitsValue(parts[0]) == a
                           && IsDigits(parts[1]) && DigitsValue(parts[1]) == b)
            && (a == b ==> |parts| == 1 && IsDigits(parts[0]) && DigitsValue(parts[0]) == a)
  {
    var x, y := NatToString(a), NatToString(b);
    NoDash(x);
    NoDash(y);
    NatToStringValue(a);
    NatToStringValue(b);
    if a != b {
      JoinSplit([x, y], '-');
      assert Join([x, y], '-') == x + ['-'] + y;
    }
  }

  lemma NoDash(s: seq<char>)
    requires IsDigits(s)
    ensures '-' !in s
  {
    forall k | 0 <= k < |s|
      ensures s[k] != '-'
    {
    }
  }

  // ---------------------------------------------------- get_last_directory

  /** The position just after the last '/', 0 when there is none. */
  function AfterLastSlash(path: seq<char>): (i: nat)
    ensures i <= |path| && '/' !in path[i..]
    ensures i > 0 ==> path[i - 1] == '/'
  {
    if path == [] then 0
    else if path[|path| - 1] == '/' then |path|
    else AfterLastSlash(path[..|path| - 1])
  }

  /** `os.path.basename(path)`. */
  function Basename(path: seq<char>): seq<char>
  {
    path[AfterLastSlash(path)..]
  }

  /** `s.rstrip('/')`. */
  function StripSlashes(s: seq<char>): (r: seq<char>)
    ensures |r| <= |s| && r == s[..|r|] && (r != [] ==> r[|r| - 1] != '/')
  {
    if s != [] && s[|s| - 1] == '/' then StripSlashes(s[..|s| - 1]) else s
  }

  /** `os.path.dirname(path)`: the head up to the last '/', without its
      trailing slashes unless it is made of slashes only. */
  function Dirname(path: seq<char>): seq<char>
  {
    var head := path[..AfterLastSlash(path)];
    if StripSlashes(head) != [] then StripSlashes(head) else head
  }

  /** `get_last_directory(directory)`. */
  function LastDirectory(path: seq<char>): (r: seq<char>)
    ensures '/' !in r
  {
    if Basename(path) != [] then Basename(path) else Basename(Dirname(path))
  }

  lemma AfterLastSlashName(dir: seq<char>, name: seq<char>)
    requires '/' !in name
    ensures AfterLastSlash(dir + ['/'] + name) == |dir| + 1
    decreases |name|
  {
    if name != [] {
      var n := |name| - 1;
      assert (dir + ['/'] + name)[..|dir| + 1 + n] == dir + ['/'] + name[..n];
      AfterLastSlashName(dir, name[..n]);
    }
  }

  /** The last component of a path, whether or not it ends in one '/'. */
  lemma LastDirectoryOfPath(dir: seq<char>, name: seq<char>)
    requires name != [] && '/' !in name && (dir == [] || dir[|dir| - 1] != '/')
    ensures LastDirectory(dir + ['/'] + name) == name
    ensures LastDirectory(dir + ['/'] + name + ['/']) == name
  {
    AfterLastSlashName(dir, name);
    assert (dir + ['/'] + name)[|dir| + 1..] == name;
    var p := dir + ['/'] + name + ['/'];
    assert AfterLastSlash(p) == |p|;
    assert Basename(p) == [];
    assert p[..|p|] == p;
    assert StripSlashes(p) == dir + ['/'] + name by {
      assert p[..|p| - 1] == dir + ['/'] + name;
    }
  }

  // --------------------------------------------------- get_topic_directory

  /** `-sys.maxint - 1` on a 64-bit build. */
  const MIN_INT: int := -0x8000_0000_0000_0000

  /** The running maximum and its entry after the first n entries; an entry
      that is not an integer is skipped (its `ValueError` is caught). */
  function BestAfter(entries: seq<seq<char>>, n: nat, parseInt: seq<char> -> Option<int>): (int, seq<char>)
    requires n <= |entries|
  {
    if n == 0 then (MIN_INT, [])
    else
      var (maxId, best) := BestAfter(entries, n - 1, parseInt);
      match parseInt(entries[n - 1])
      case None => (maxId, best)
      case Some(id) => if id > maxId then (id, entries[n - 1]) else (maxId, best)
  }

  /** The chosen entry is '' when no entry names an integer above
      `-sys.maxint - 1`; otherwise it is the first entry whose integer value
      is the largest, and the running maximum is that value. */
  lemma {:induction false} BestAfterMeaning(entries: seq<seq<char>>, n: nat, parseInt: seq<char> -> Option<int>)
    requires n <= |entries|
    ensures var (maxId, best) := BestAfter(entries, n, parseInt);
            && maxId >= MIN_INT
            && (forall k :: 0 <= k < n && parseInt(entries[k]).Some? ==> parseInt(entries[k]).value <= maxId)
            && (maxId == MIN_INT ==> best == [])
            && (maxId > MIN_INT ==>
                  exists k :: 0 <= k < n && entries[k] == best && parseInt(entries[k]) == Some(maxId)
                              && forall j :: 0 <= j < k && parseInt(entries[j]).Some? ==> parseInt(entries[j]).value < maxId)
  {
    if n > 0 {
      BestAfterMeaning(entries, n - 1, parseInt);
      var (maxId, best) := BestAfter(entries, n - 1, parseInt);
      match parseInt(entries[n - 1])
      case None =>
      case Some(id) =>
        if id > maxId {
          assert entries[n - 1] == entries[n - 1] && parseInt(entries[n - 1]) == Some(id);
        }
    }
  }

  /** `os.path.join(directory, entry)`. */
  function PathJoin(a: seq<char>, b: seq<char>): seq<char>
  {
    if b != [] && b[0] == '/' then b
    else if a == [] || a[|a| - 1] == '/' then a + b
    else a + ['/'] + b
  }

  /** `get_topic_directory(directory)`, over its listing. */
  method GetTopicDirectory(directory: seq<char>, entries: seq<seq<char>>, parseInt: seq<char> -> Option<int>)
    returns (path: seq<char>)
    ensures path == PathJoin(directory, BestAfter(entries, |entries|, parseInt).1)
  {
    var maxId := MIN_INT;
    var maxDirEntry: seq<char> := [];
    for n := 0 to |entries|
      invariant BestAfter(entries, n, parseInt) == (maxId, maxDirEntry)
    {
      var entryId := parseInt(entries[n]);
      if entryId.Some? && entryId.value > maxId {
        maxId := entryId.value;
        maxDirEntry := entries[n];
      }
    }
    path := PathJoin(directory, maxDirEntry);
  }

  // --------------------------------------------------- extract_topic_words

  /** `defaultdict(list)[key]`. */
  function Get<T>(m: map<int, seq<T>>, key: int): seq<T>
  {
    if key in m then m[key] else []
  }

  /** The topic and the word lists after the first n summary lines: a line
      of three or more tokens sets the current topic to its second token; a
      line of one or two tokens adds its first token to the current topic. */
  function TopicWordsAfter(lines: seq<seq<char>>, n: nat, parseInt: seq<char> -> Option<int>)
    : Result<(int, map<int, seq<seq<char>>>), PyError>
    requires n <= |lines|
  {
    if n == 0 then Success((-1, map[]))
    else match TopicWordsAfter(lines, n - 1, parseInt)
      case Failure(e) => Failure(e)
      case Success((topic, words)) =>
        var tokens := Tokens(RStrip(lines[n - 1]));
        if |tokens| >= 3 then
          match parseInt(tokens[1])
          case None => Failure(ValueError)
          case Some(t) => Success((t, words))
        else if |tokens| >= 1 then Success((topic, words[topic := Get(words, topic) + [tokens[0]]]))
        else Success((topic, words))
  }

  /** The topic in force after the first n lines: that of the last line of
      three or more tokens, -1 before any. */
  ghost function TopicBefore(lines: seq<seq<char>>, n: nat, parseInt: seq<char> -> Option<int>): Option<int>
    requires n <= |lines|
  {
    if n == 0 then Some(-1)
    else if |Tokens(lines[n - 1])| >= 3 then parseInt(Tokens(lines[n - 1])[1])
    else TopicBefore(lines, n - 1, parseInt)
  }

  /** The first tokens of the one- and two-token lines among the first n
      whose topic in force is t. */
  ghost function WordsOfTopic(lines: seq<seq<char>>, n: nat, parseInt: seq<char> -> Option<int>, t: int): seq<seq<char>>
    requires n <= |lines|
  {
    if n == 0 then []
    else
      var tokens := Tokens(lines[n - 1]);
      WordsOfTopic(lines, n - 1, parseInt, t)
      + (if 1 <= |tokens| < 3 && TopicBefore(lines, n - 1, parseInt) == Some(t) then [tokens[0]] else [])
  }

  /** When the summary parses, the current topic is that of the last topic
      line, and each topic's list holds, in order, the first tokens of the
      word lines under it — and nothing under a topic no line gave. */
  lemma {:induction false} TopicWordsMeaning(lines: seq<seq<char>>, n: nat, parseInt: seq<char> -> Option<int>)
    requires n <= |lines| && TopicWordsAfter(lines, n, parseInt).Success?
    ensures Some(TopicWordsAfter(lines, n, parseInt).value.0) == TopicBefore(lines, n, parseInt)
    ensures forall t :: Get(TopicWordsAfter(lines, n, parseInt).value.1, t) == WordsOfTopic(lines, n, parseInt, t)
  {
    if n > 0 {
      TopicWordsMeaning(lines, n - 1, parseInt);
      TokensRStrip(lines[n - 1]);
    }
  }

  /** `extract_topic_words(summary_filename)`. */
  method ExtractTopicWords(lines: seq<seq<char>>, parseInt: seq<char> -> Option<int>)
    returns (r: Result<map<int, seq<seq<char>>>, PyError>)
    ensures TopicWordsAfter(lines, |lines|, parseInt).Success? ==>
              r == Success(TopicWordsAfter(lines, |lines|, parseInt).value.1)
    ensures TopicWordsAfter(lines, |lines|, parseInt).Failure? ==> r == Failure(ValueError)
  {
    var topicWords: map<int, seq<seq<char>>> := map[];
    var currentTopic := -1;
    for n := 0 to |lines|
      invariant TopicWordsAfter(lines, n, parseInt) == Success((currentTopic, topicWords))
    {
      var tokens := Tokens(RStrip(lines[n]));
      if |tokens| >= 3 {
        var t := parseInt(tokens[1]);
        if t.None? {
          TopicWordsFail(lines, n + 1, parseInt);
          return Failure(ValueError);
        }
        currentTopic := t.value;
      } else if |tokens| >= 1 {
        topicWords := topicWords[currentTopic := Get(topicWords, currentTopic) + [tokens[0]]];
      }
    }
    return Success(topicWords);
  }

  lemma {:induction false} TopicWordsFail(lines: seq<seq<char>>, n: nat, parseInt: seq<char> -> Option<int>)
    requires n <= |lines| && TopicWordsAfter(lines, n, parseInt) == Failure(ValueError)
    ensures TopicWordsAfter(lines, |lines|, parseInt) == Failure(ValueError)
    decreases |lines| - n
  {
    if n < |lines| {
      TopicWordsFail(lines, n + 1, parseInt);
    }
  }

  // --------------------------------------------------- extract_topic_years

  /** `max((value, i) for i, value in ...)[1]`: the position of a largest
      value, the last one among equals (tuples compare on the index next). */
  function ArgMax(values: seq<real>): (i: nat)
    requires values != []
    ensures i < |values|
    ensures forall k :: 0 <= k < |values| ==> values[k] <= values[i]
    ensures forall k :: i < k < |values| ==> values[k] < values[i]
  {
    if |values| == 1 then 0
    else
      var j := ArgMax(values[..|values| - 1]);
      if values[|values| - 1] >= values[j] then |values| - 1 else j
  }

  /** `float()` of every field, or `ValueError`. */
  function ParseFloats(fields: seq<seq<char>>, parseFloat: seq<char> -> Option<real>): (r: Option<seq<real>>)
    ensures r.Some? ==> |r.value| == |fields| && forall k :: 0 <= k < |fields| ==> parseFloat(fields[k]) == Some(r.value[k])
  {
    if fields == [] then Some([])
    else match parseFloat(fields[0])
      case None => None
      case Some(v) =>
        match ParseFloats(fields[1..], parseFloat)
        case None => None
        case Some(rest) => Some([v] + rest)
  }

  /** What one non-empty row of the distributions adds: the calendar year of
      its document, under its most probable topic.  A document index that
      is not an integer or a value that is not a number raises `ValueError`,
      an index the history does not know `KeyError`, and a row without
      values `ValueError` (the maximum of nothing). */
  function RowTopic(yearMap: map<int, int>, row: seq<seq<char>>,
                    parseInt: seq<char> -> Option<int>, parseFloat: seq<char> -> Option<real>)
    : (r: Result<(nat, int), PyError>)
    requires row != []
    ensures r.Success? ==>
              && parseInt(row[0]).Some? && parseInt(row[0]).value in yearMap
              && r.value.1 == 1500 + yearMap[parseInt(row[0]).value]
              && ParseFloats(row[1..], parseFloat).Some? && r.value.0 < |row| - 1
              && forall k :: 0 <= k < |row| - 1 ==>
                   ParseFloats(row[1..], parseFloat).value[k] <= ParseFloats(row[1..], parseFloat).value[r.value.0]
  {
    match parseInt(row[0])
    case None => Failure(ValueError)
    case Some(index) =>
      if index !in yearMap then Failure(KeyError)
      else match ParseFloats(row[1..], parseFloat)
        case None => Failure(ValueError)
        case Some(values) => if values == [] then Failure(ValueError) else Success((ArgMax(values), 1500 + yearMap[index]))
  }

  /** The years of each topic after the first n rows; an empty row is
      skipped. */
  function TopicYearsAfter(yearMap: map<int, int>, rows: seq<seq<seq<char>>>, n: nat,
                           parseInt: seq<char> -> Option<int>, parseFloat: seq<char> -> Option<real>)
    : Result<map<int, seq<int>>, PyError>
    requires n <= |rows|
  {
    if n == 0 then Success(map[])
    else match TopicYearsAfter(yearMap, rows, n - 1, parseInt, parseFloat)
      case Failure(e) => Failure(e)
      case Success(years) =>
        if rows[n - 1] == [] then Success(years)
        else match RowTopic(yearMap, rows[n - 1], parseInt, parseFloat)
          case Failure(e) => Failure(e)
          case Success((topic, year)) => Success(years[topic := Get(years, topic) + [year]])
  }

  /** The years the first n rows give topic t, in order. */
  ghost function YearsOfTopic(yearMap: map<int, int>, rows: seq<seq<seq<char>>>, n: nat,
                              parseInt: seq<char> -> Option<int>, parseFloat: seq<char> -> Option<real>, t: int): seq<int>
    requires n <= |rows|
  {
    if n == 0 then []
    else
      YearsOfTopic(yearMap, rows, n - 1, parseInt, parseFloat, t)
      + (if rows[n - 1] != [] && RowTopic(yearMap, rows[n - 1], parseInt, parseFloat).Success?
            && RowTopic(yearMap, rows[n - 1], parseInt, parseFloat).value.0 == t
         then [RowTopic(yearMap, rows[n - 1], parseInt, parseFloat).value.1] else [])
  }

  /** When the distributions parse, each topic holds, in order, the years of
      exactly the documents whose most probable topic it is. */
  lemma {:induction false} TopicYearsMeaning(yearMap: map<int, int>, rows: seq<seq<seq<char>>>, n: nat,
                                             parseInt: seq<char> -> Option<int>, parseFloat: seq<char> -> Option<real>)
    requires n <= |rows| && TopicYearsAfter(yearMap, rows, n, parseInt, parseFloat).Success?
    ensures forall t :: Get(TopicYearsAfter(yearMap, rows, n, parseInt, parseFloat).value, t)
                        == YearsOfTopic(yearMap, rows, n, parseInt, parseFloat, t)
  {
    if n > 0 {
      TopicYearsMeaning(yearMap, rows, n - 1, parseInt, parseFloat);
    }
  }

  /** `extract_topic_years(year_map, distributions_filename)`, over the rows
      of the CSV file. */
  method ExtractTopicYears(yearMap: map<int, int>, rows: seq<seq<seq<char>>>,
                           parseInt: seq<char> -> Option<int>, parseFloat: seq<char> -> Option<real>)
    returns (r: Result<map<int, seq<int>>, PyError>)
    ensures r == TopicYearsAfter(yearMap, rows, |rows|, parseInt, parseFloat)
  {
    var topicYears: map<int, seq<int>> := map[];
    for n := 0 to |rows|
      invariant TopicYearsAfter(yearMap, rows, n, parseInt, parseFloat) == Success(topicYears)
    {
      if rows[n] != [] {
        var entry := RowTopic(yearMap, rows[n], parseInt, parseFloat);
        if entry.Failure? {
          TopicYearsFail(yearMap, rows, n + 1, parseInt, parseFloat);
          return Failure(entry.error);
        }
        var (topic, year) := entry.value;
        topicYears := topicYears[topic := Get(topicYears, topic) + [year]];
      }
    }
    return Success(topicYears);
  }

  lemma {:induction false} TopicYearsFail(yearMap: map<int, int>, rows: seq<seq<seq<char>>>, n: nat,
                                          parseInt: seq<char> -> Option<int>, parseFloat: seq<char> -> Option<real>)
    requires n <= |rows| && TopicYearsAfter(yearMap, rows, n, parseInt, parseFloat).Failure?
    ensures TopicYearsAfter(yearMap, rows, |rows|, parseInt, parseFloat) == TopicYearsAfter(yearMap, rows, n, parseInt, parseFloat)
    decreases |rows| - n
  {
    if n < |rows| {
      TopicYearsFail(yearMap, rows, n + 1, parseInt, parseFloat);
    }
  }
}
