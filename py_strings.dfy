/** The few Python operations the scripts rely on, over `seq<char>`:
    `split(sep)`, `sep.join`, `split()` on whitespace, `lstrip()` and
    `rstrip()`, ASCII `isalpha`, `str()` of an integer, list indexing, and
    the exceptions they raise. */
module PyStrings {
  import opened Wrappers

  /** The Python exceptions the scripts let escape (or catch). */
  datatype PyError = ValueError | IndexError | KeyError | StructError | ZeroDivisionError

  /** The characters `str.split()` and `str.lstrip()` treat as whitespace. */
  predicate IsSpace(c: char)
  {
    c == ' ' || c == '\t' || c == '\n' || c == '\r' || c == '\U{B}' || c == '\U{C}'
  }

  /** `str.isalpha()` on one character of a byte string in the C locale. */
  predicate IsAlpha(c: char)
  {
    ('a' <= c <= 'z') || ('A' <= c <= 'Z')
  }

  /** The position of the first `sep` in s. */
  function IndexOf(s: seq<char>, sep: char): (i: nat)
    requires sep in s
    ensures i < |s| && s[i] == sep && sep !in s[..i]
  {
    if s[0] == sep then 0 else 1 + IndexOf(s[1..], sep)
  }

  /** `s.split(sep)`: the pieces between the separators, at least one. */
  function Split(s: seq<char>, sep: char): (r: seq<seq<char>>)
    ensures |r| >= 1 && (|r| == 1 <==> sep !in s)
    decreases |s|
  {
    if sep !in s then [s]
    else
      var i := IndexOf(s, sep);
      [s[..i]] + Split(s[i + 1..], sep)
  }

  /** No piece of a split holds the separator. */
  lemma {:induction false} SplitPieces(s: seq<char>, sep: char)
    ensures forall p <- Split(s, sep) :: sep !in p
    decreases |s|
  {
    if sep in s {
      var i := IndexOf(s, sep);
      SplitPieces(s[i + 1..], sep);
    }
  }

  /** `sep.join(parts)`. */
  function Join(parts: seq<seq<char>>, sep: char): seq<char>
  {
    if parts == [] then []
    else if |parts| == 1 then parts[0]
    else parts[0] + [sep] + Join(parts[1..], sep)
  }

  /** Joining the pieces of a split gives the string back. */
  lemma {:induction false} SplitJoin(s: seq<char>, sep: char)
    ensures Join(Split(s, sep), sep) == s
    decreases |s|
  {
    if sep in s {
      var i := IndexOf(s, sep);
      var tail := s[i + 1..];
      SplitJoin(tail, sep);
      JoinCons(s[..i], Split(tail, sep), sep);
      assert s == s[..i] + [sep] + tail;
    }
  }

  lemma JoinCons(p: seq<char>, parts: seq<seq<char>>, sep: char)
    requires parts != []
    ensures Join([p] + parts, sep) == p + [sep] + Join(parts, sep)
  {
    assert ([p] + parts)[1..] == parts;
  }

  /** Splitting a join of pieces free of the separator gives the pieces back. */
  lemma {:induction false} JoinSplit(parts: seq<seq<char>>, sep: char)
    requires |parts| >= 1 && forall p <- parts :: sep !in p
    ensures Split(Join(parts, sep), sep) == parts
  {
    if |parts| > 1 {
      var rest := parts[1..];
      assert forall p <- rest :: p in parts;
      assert parts[0] in parts;
      JoinSplit(rest, sep);
      SplitCons(parts[0], Join(rest, sep), sep);
    }
  }

  /** Splitting at a first piece free of the separator. */
  lemma SplitCons(a: seq<char>, t: seq<char>, sep: char)
    requires sep !in a
    ensures Split(a + [sep] + t, sep) == [a] + Split(t, sep)
  {
    var s := a + [sep] + t;
    assert s[..|a|] == a && s[|a|] == sep && s[|a| + 1..] == t;
    IndexOfFirst(s, sep, |a|);
  }

  lemma {:induction false} IndexOfFirst(s: seq<char>, sep: char, i: nat)
    requires i < |s| && s[i] == sep && sep !in s[..i]
    ensures IndexOf(s, sep) == i
  {
    if i > 0 {
      assert s[0] in s[..i];
      assert s[1..][..i - 1] == s[..i][1..];
      IndexOfFirst(s[1..], sep, i - 1);
    }
  }

  /** `s.lstrip()`: s without its leading whitespace. */
  function LStrip(s: seq<char>): (r: seq<char>)
    ensures |r| <= |s| && r == s[|s| - |r|..]
    ensures forall k :: 0 <= k < |s| - |r| ==> IsSpace(s[k])
    ensures r != [] ==> !IsSpace(r[0])
  {
    if s != [] && IsSpace(s[0]) then LStrip(s[1..]) else s
  }

  /** `s.rstrip()`: s without its trailing whitespace. */
  function RStrip(s: seq<char>): (r: seq<char>)
    ensures |r| <= |s| && r == s[..|r|]
    ensures forall k :: |r| <= k < |s| ==> IsSpace(s[k])
    ensures r != [] ==> !IsSpace(r[|r| - 1])
  {
    if s != [] && IsSpace(s[|s| - 1]) then RStrip(s[..|s| - 1]) else s
  }

  /** `s.rstrip().split()` is `s.split()`. */
  lemma {:induction false} TokensRStrip(s: seq<char>)
    ensures Tokens(RStrip(s)) == Tokens(s)
    decreases |s|
  {
    if s != [] && IsSpace(s[|s| - 1]) {
      TokensRStrip(s[..|s| - 1]);
      TokensTrailingSpace(s[..|s| - 1], s[|s| - 1]);
      assert s[..|s| - 1] + [s[|s| - 1]] == s;
    }
  }

  /** The position `list[i]` refers to in a list of n elements: negative
      indices count from the end; `None` is an `IndexError`. */
  function PyIndex(i: int, n: nat): (r: Option<nat>)
    ensures r.Some? <==> -(n as int) <= i < n
    ensures r.Some? ==> r.value < n && (r.value == i || r.value == n + i)
    ensures 0 <= i < n ==> r == Some(i)
  {
    if 0 <= i < n then Some(i) else if -(n as int) <= i < 0 then Some((n as int + i) as nat) else None
  }

  /** The length of the run of non-whitespace at the start of s. */
  function TokenLength(s: seq<char>): (n: nat)
    ensures n <= |s| && (n < |s| ==> IsSpace(s[n]))
    ensures forall k :: 0 <= k < n ==> !IsSpace(s[k])
  {
    if s == [] || IsSpace(s[0]) then 0 else 1 + TokenLength(s[1..])
  }

  /** `s.split()`: the maximal runs of non-whitespace, in order. */
  function Tokens(s: seq<char>): (r: seq<seq<char>>)
    decreases |s|
  {
    if s == [] then []
    else if IsSpace(s[0]) then Tokens(s[1..])
    else
      var n := TokenLength(s);
      [s[..n]] + Tokens(s[n..])
  }

  /** s without its whitespace. */
  function NonSpace(s: seq<char>): seq<char>
  {
    if s == [] then [] else (if IsSpace(s[0]) then [] else [s[0]]) + NonSpace(s[1..])
  }

  function Concat(parts: seq<seq<char>>): seq<char>
  {
    if parts == [] then [] else parts[0] + Concat(parts[1..])
  }

  /** The tokens are non-empty and free of whitespace, and together they are
      the non-whitespace characters of s, in order. */
  lemma {:induction false} TokensMeaning(s: seq<char>)
    ensures forall t <- Tokens(s) :: t != [] && forall c <- t :: !IsSpace(c)
    ensures Concat(Tokens(s)) == NonSpace(s)
    decreases |s|
  {
    if s != [] {
      if IsSpace(s[0]) {
        TokensMeaning(s[1..]);
      } else {
        var n := TokenLength(s);
        TokensMeaning(s[n..]);
        NonSpaceSplit(s, n);
        NonSpaceOfToken(s[..n]);
      }
    }
  }

  lemma {:induction false} NonSpaceSplit(s: seq<char>, n: nat)
    requires n <= |s|
    ensures NonSpace(s) == NonSpace(s[..n]) + NonSpace(s[n..])
  {
    if n > 0 {
      NonSpaceSplit(s[1..], n - 1);
      assert s[1..][..n - 1] == s[..n][1..];
      assert s[1..][n - 1..] == s[n..];
    }
  }

  lemma {:induction false} NonSpaceOfToken(t: seq<char>)
    requires forall c <- t :: !IsSpace(c)
    ensures NonSpace(t) == t
  {
    if t != [] {
      assert forall c <- t[1..] :: c in t;
      NonSpaceOfToken(t[1..]);
    }
  }

  /** Trailing whitespace does not change the tokens: `s.rstrip().split()`
      is `s.split()`. */
  lemma {:induction false} TokensTrailingSpace(s: seq<char>, c: char)
    requires IsSpace(c)
    ensures Tokens(s + [c]) == Tokens(s)
    decreases |s|
  {
    if s != [] {
      assert (s + [c])[1..] == s[1..] + [c];
      if IsSpace(s[0]) {
        TokensTrailingSpace(s[1..], c);
      } else {
        var n := TokenLength(s);
        TokenLengthAppend(s, c);
        assert (s + [c])[..n] == s[..n];
        if n < |s| {
          assert (s + [c])[n..] == s[n..] + [c];
          TokensTrailingSpace(s[n..], c);
        } else {
          assert (s + [c])[n..] == [c];
          assert [c][1..] == [];
          assert Tokens([c]) == Tokens([]) == [];
          assert s[n..] == [];
        }
      }
    }
  }

  lemma {:induction false} TokenLengthAppend(s: seq<char>, c: char)
    requires IsSpace(c)
    ensures TokenLength(s + [c]) == TokenLength(s)
  {
    if s != [] && !IsSpace(s[0]) {
      assert (s + [c])[1..] == s[1..] + [c];
      TokenLengthAppend(s[1..], c);
    }
  }

  predicate IsDigits(s: seq<char>)
  {
    forall k :: 0 <= k < |s| ==> '0' <= s[k] <= '9'
  }

  /** The decimal digits of n, without sign or leading zeros. */
  function NatToString(n: nat): (r: seq<char>)
    ensures r != [] && IsDigits(r)
    decreases n
  {
    var d := [(('0' as int) + n % 10) as char];
    if n < 10 then d else NatToString(n / 10) + d
  }

  /** `str(i)`. */
  function IntToString(i: int): (r: seq<char>)
    ensures r != []
  {
    if i < 0 then ['-'] + NatToString(-i) else NatToString(i)
  }

  /** The value of a string of decimal digits. */
  function DigitsValue(s: seq<char>): nat
    requires IsDigits(s)
  {
    if s == [] then 0
    else
      10 * DigitsValue(s[..|s| - 1]) + ((s[|s| - 1] as int) - ('0' as int))
  }

  /** The digits read back as the number. */
  lemma {:induction false} NatToStringValue(n: nat)
    ensures DigitsValue(NatToString(n)) == n
    decreases n
  {
    if n >= 10 {
      NatToStringValue(n / 10);
      var r := NatToString(n);
      assert r[..|r| - 1] == NatToString(n / 10);
    }
  }
}
