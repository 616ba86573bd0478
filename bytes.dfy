/** Bytes and C strings.  A C string is modelled by its characters without the
    terminating NUL; `StrCmp` is the sign of the C library's `strcmp`, which
    compares the bytes as unsigned chars and orders a proper prefix first. */
module Bytes {

  newtype byte = x: int | 0 <= x < 256

  /** No NUL byte inside: the characters of a C string before its terminator. */
  predicate IsCString(s: seq<byte>)
  {
    forall i :: 0 <= i < |s| ==> s[i] != 0
  }

  /** `strlen` applied to a buffer: the position of the first NUL, or the
      whole buffer when it holds none. */
  function StrLen(s: seq<byte>): (n: nat)
    ensures n <= |s|
    ensures IsCString(s[..n])
    ensures n < |s| ==> s[n] == 0
  {
    if |s| == 0 || s[0] == 0 then 0 else 1 + StrLen(s[1..])
  }

  lemma {:induction false} StrLenOfCString(s: seq<byte>)
    requires IsCString(s)
    ensures StrLen(s) == |s|
  {
    if |s| > 0 {
      StrLenOfCString(s[1..]);
    }
  }

  /** The sign of `strcmp(a, b)`: -1, 0 or 1. */
  function StrCmp(a: seq<byte>, b: seq<byte>): (r: int)
    ensures -1 <= r <= 1
  {
    if |a| == 0 && |b| == 0 then 0
    else if |a| == 0 then -1
    else if |b| == 0 then 1
    else if a[0] < b[0] then -1
    else if a[0] > b[0] then 1
    else StrCmp(a[1..], b[1..])
  }

  lemma {:induction false} StrCmpZeroIffEqual(a: seq<byte>, b: seq<byte>)
    ensures StrCmp(a, b) == 0 <==> a == b
  {
    if |a| > 0 && |b| > 0 && a[0] == b[0] {
      StrCmpZeroIffEqual(a[1..], b[1..]);
      assert a == [a[0]] + a[1..] && b == [b[0]] + b[1..];
    }
  }

  lemma {:induction false} StrCmpAntisymmetric(a: seq<byte>, b: seq<byte>)
    ensures StrCmp(a, b) == -StrCmp(b, a)
  {
    if |a| > 0 && |b| > 0 && a[0] == b[0] {
      StrCmpAntisymmetric(a[1..], b[1..]);
    }
  }

  lemma {:induction false} StrCmpTransitive(a: seq<byte>, b: seq<byte>, c: seq<byte>)
    requires StrCmp(a, b) <= 0 && StrCmp(b, c) <= 0
    ensures StrCmp(a, c) <= 0
  {
    if |a| > 0 && |b| > 0 && |c| > 0 && a[0] == b[0] == c[0] {
      StrCmpTransitive(a[1..], b[1..], c[1..]);
    }
  }
}
