/** The word loop of `relevance.cpp`'s `main`: each query word is looked
    up with `bsearch` and `string_compare` (the sign of `strcmp`) in the
    reader's sorted word array, and `handle_entry` runs for the words
    found, at their index, until one of them fails. */
module RelevanceLookup {
  import opened Bytes
  import opened Wrappers

  /** The reader's words are in non-decreasing `strcmp` order, which is
      what the sort stage writes and what `bsearch` demands. */
  ghost predicate SortedWords(words: seq<seq<byte>>)
  {
    forall i, j :: 0 <= i < j < |words| ==> StrCmp(words[i], words[j]) <= 0
  }

  /** The C library's `bsearch` over [lo, hi): probe the middle, go left
      when the key is smaller, right when it is larger, stop when equal. */
  function BSearch(words: seq<seq<byte>>, key: seq<byte>, lo: nat, hi: nat): (r: Option<nat>)
    requires lo <= hi <= |words|
    ensures r.Some? ==> lo <= r.value < hi && words[r.value] == key
    decreases hi - lo
  {
    if lo >= hi then None
    else
      var mid := (lo + hi) / 2;
      var c := StrCmp(key, words[mid]);
      if c < 0 then BSearch(words, key, lo, mid)
      else if c > 0 then BSearch(words, key, mid + 1, hi)
      else (StrCmpZeroIffEqual(key, words[mid]); Some(mid))
  }

  /** On sorted words the search misses only keys that are absent. */
  lemma {:induction false} BSearchMissing(words: seq<seq<byte>>, key: seq<byte>, lo: nat, hi: nat)
    requires lo <= hi <= |words| && SortedWords(words)
    requires BSearch(words, key, lo, hi).None?
    ensures forall i :: lo <= i < hi ==> words[i] != key
    decreases hi - lo
  {
    if lo < hi {
      var mid := (lo + hi) / 2;
      var c := StrCmp(key, words[mid]);
      StrCmpZeroIffEqual(key, words[mid]);
      StrCmpAntisymmetric(key, words[mid]);
      if c < 0 {
        BSearchMissing(words, key, lo, mid);
        forall i | mid < i < hi
          ensures words[i] != key
        {
          assert StrCmp(words[mid], words[i]) <= 0;
        }
      } else if c > 0 {
        BSearchMissing(words, key, mid + 1, hi);
        forall i | lo <= i < mid
          ensures words[i] != key
        {
          assert StrCmp(words[i], words[mid]) <= 0;
        }
      }
    }
  }

  /** On sorted words a present key is always found. */
  lemma BSearchFinds(words: seq<seq<byte>>, key: seq<byte>)
    requires SortedWords(words)
    ensures BSearch(words, key, 0, |words|).Some? <==> key in words
  {
    if BSearch(words, key, 0, |words|).None? {
      BSearchMissing(words, key, 0, |words|);
    }
  }

  /** `bsearch(&key, words, num_words, ...)`. */
  method BinarySearch(words: seq<seq<byte>>, key: seq<byte>) returns (p: Option<nat>)
    ensures p == BSearch(words, key, 0, |words|)
  {
    var lo, hi := 0, |words|;
    while lo < hi
      invariant lo <= hi <= |words|
      invariant BSearch(words, key, lo, hi) == BSearch(words, key, 0, |words|)
      decreases hi - lo
    {
      var mid := (lo + hi) / 2;
      var c := StrCmp(key, words[mid]);
      if c < 0 {
        hi := mid;
      } else if c > 0 {
        lo := mid + 1;
      } else {
        return Some(mid);
      }
    }
    p := None;
  }

  /** What the loop did: the indices `handle_entry` ran on, in order, and
      the error code `main` returns. */
  datatype Outcome = Outcome(handled: seq<nat>, err: int)

  /** The loop over the query words `qs`, with `readTable(i)` the error code
      of `read_table` for index i (the only failure of `handle_entry`): a
      word that is not found is skipped, and the first failure ends the
      loop with its code. */
  function Run(words: seq<seq<byte>>, qs: seq<seq<byte>>, readTable: nat -> int): (o: Outcome)
    decreases |qs|
  {
    if qs == [] then Outcome([], 0)
    else match BSearch(words, qs[0], 0, |words|)
      case None => Run(words, qs[1..], readTable)
      case Some(i) =>
        if readTable(i) != 0 then Outcome([i], readTable(i))
        else var rest := Run(words, qs[1..], readTable); Outcome([i] + rest.handled, rest.err)
  }

  /** Every index handled holds one of the query words. */
  lemma {:induction false} RunHandlesQueries(words: seq<seq<byte>>, qs: seq<seq<byte>>, readTable: nat -> int)
    ensures forall i <- Run(words, qs, readTable).handled :: i < |words| && words[i] in qs
    decreases |qs|
  {
    if qs != [] {
      RunHandlesQueries(words, qs[1..], readTable);
    }
  }

  /** A failing run stops at its last handled index, which gave the code,
      and every earlier one succeeded; a successful run had no failure. */
  lemma {:induction false} RunStopsAtError(words: seq<seq<byte>>, qs: seq<seq<byte>>, readTable: nat -> int)
    ensures var o := Run(words, qs, readTable);
            (o.err != 0 ==> |o.handled| > 0 && readTable(o.handled[|o.handled| - 1]) == o.err)
            && (forall k :: 0 <= k < |o.handled| - 1 ==> readTable(o.handled[k]) == 0)
            && (o.err == 0 ==> forall k :: 0 <= k < |o.handled| ==> readTable(o.handled[k]) == 0)
    decreases |qs|
  {
    if qs != [] {
      RunStopsAtError(words, qs[1..], readTable);
    }
  }

  /** A run without failure, on sorted words, handles every query word the
      reader holds. */
  lemma {:induction false} RunComplete(words: seq<seq<byte>>, qs: seq<seq<byte>>, readTable: nat -> int)
    requires SortedWords(words) && Run(words, qs, readTable).err == 0
    ensures forall q <- qs :: q in words ==> exists i <- Run(words, qs, readTable).handled :: i < |words| && words[i] == q
    decreases |qs|
  {
    if qs != [] {
      var o := Run(words, qs, readTable);
      BSearchFinds(words, qs[0]);
      match BSearch(words, qs[0], 0, |words|)
      case None =>
        RunComplete(words, qs[1..], readTable);
        assert forall q <- qs :: q == qs[0] || q in qs[1..];
      case Some(i) =>
        RunComplete(words, qs[1..], readTable);
        assert o.handled[0] == i;
        assert forall q <- qs :: q == qs[0] || q in qs[1..];
    }
  }

  function Prepend(h: seq<nat>, o: Outcome): Outcome
  {
    Outcome(h + o.handled, o.err)
  }

  /** `main`: `initErr` is the code of `init_dictreader`; on failure no word
      is handled. */
  method RelevanceMain(words: seq<seq<byte>>, queries: seq<seq<byte>>, initErr: int, readTable: nat -> int)
    returns (handled: seq<nat>, err: int)
    ensures initErr != 0 ==> handled == [] && err == initErr
    ensures initErr == 0 ==> Outcome(handled, err) == Run(words, queries, readTable)
  {
    if initErr != 0 {
      return [], initErr;
    }
    handled, err := [], 0;
    var k := 0;
    while k < |queries|
      invariant 0 <= k <= |queries| && err == 0
      invariant Run(words, queries, readTable) == Prepend(handled, Run(words, queries[k..], readTable))
    {
      assert queries[k..][1..] == queries[k + 1..];
      var p := BinarySearch(words, queries[k]);
      if p.Some? {
        var index := p.value;
        err := readTable(index);
        handled := handled + [index];
        if err != 0 {
          return;
        }
      }
      k := k + 1;
    }
  }
}
