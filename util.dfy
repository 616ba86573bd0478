/** `concatenate` of `util.c`: a freshly allocated C string holding `left`
    followed by `right`. */
module Util {
  import opened Bytes

  /** The buffer `concatenate` fills: the characters of both strings and the
      terminating NUL. */
  function Concatenation(left: seq<byte>, right: seq<byte>): (r: seq<byte>)
    requires IsCString(left) && IsCString(right)
    ensures |r| == |left| + |right| + 1
    ensures r[..|left|] == left && r[|left|..|left| + |right|] == right && r[|left| + |right|] == 0
    ensures StrLen(r) == |left| + |right| && r[..StrLen(r)] == left + right
  {
    var r := left + right + [0];
    assert r[..|left| + |right|] == left + right;
    StrLenOfTerminated(left + right);
    r
  }

  /** A C string followed by its terminator has the string's length. */
  lemma {:induction false} StrLenOfTerminated(s: seq<byte>)
    requires IsCString(s)
    ensures StrLen(s + [0]) == |s|
  {
    if |s| > 0 {
      assert (s + [0])[1..] == s[1..] + [0];
      StrLenOfTerminated(s[1..]);
    }
  }

  /** `concatenate(left, right)`.  Whether `malloc` succeeds is the
      parameter `allocates`; on failure the result is NULL. */
  method Concatenate(left: seq<byte>, right: seq<byte>, allocates: bool) returns (s: array?<byte>)
    requires IsCString(left) && IsCString(right)
    ensures !allocates ==> s == null
    ensures allocates ==> s != null && fresh(s) && s[..] == Concatenation(left, right)
  {
    if !allocates {
      return null;
    }
    s := new byte[|left| + |right| + 1];
    var i := 0;
    while i < |left|
      invariant 0 <= i <= |left|
      invariant forall k :: 0 <= k < i ==> s[k] == left[k]
    {
      s[i] := left[i];
      i := i + 1;
    }
    i := 0;
    while i < |right|
      invariant 0 <= i <= |right|
      invariant forall k :: 0 <= k < |left| ==> s[k] == left[k]
      invariant forall k :: 0 <= k < i ==> s[|left| + k] == right[k]
    {
      s[|left| + i] := right[i];
      i := i + 1;
    }
    s[|left| + |right|] := 0;
    assert s[..] == left + right + [0] by {
      forall k | 0 <= k < s.Length
        ensures s[k] == (left + right + [0])[k]
      {
        if k >= |left| && k < |left| + |right| {
          assert s[|left| + (k - |left|)] == right[k - |left|];
        }
      }
    }
  }
}
