/** The bounded append-only array of `static_array.c`: a fixed buffer of
    `STATIC_ARRAY_SIZE` range entries and the number in use. */
module StaticArrays {

  /** `STATIC_ARRAY_SIZE`. */
  const STATIC_ARRAY_SIZE: nat := 513

  /** `struct range_entry`: a year range and the slope fitted over it. */
  datatype RangeEntry = RangeEntry(left: nat, right: nat, slope: real)

  /** `struct static_array`. */
  class StaticArray {
    var size: nat
    const buffer: array<RangeEntry>

    /** The buffer has its fixed capacity and `size` never exceeds it. */
    ghost predicate Valid()
      reads this
    {
      buffer.Length == STATIC_ARRAY_SIZE && size <= STATIC_ARRAY_SIZE
    }

    /** The entries appended so far. */
    function Contents(): (c: seq<RangeEntry>)
      requires Valid()
      reads this, buffer
      ensures |c| == size <= STATIC_ARRAY_SIZE
    {
      buffer[..size]
    }

    /** The declaration of a `struct static_array`: the buffer exists; its
        size is set by `Init`. */
    constructor ()
      ensures Valid() && fresh(buffer)
    {
      size := 0;
      buffer := new RangeEntry[STATIC_ARRAY_SIZE](_ => RangeEntry(0, 0, 0.0));
    }

    /** `sa_init`: the array becomes empty; the buffer is not touched. */
    method Init()
      requires buffer.Length == STATIC_ARRAY_SIZE
      modifies this
      ensures Valid() && size == 0 && Contents() == []
    {
      size := 0;
    }

    /** `sa_append`: below capacity the entry is stored at index `size` and
        `size` grows by one, all other slots unchanged; at capacity nothing
        changes (the source only logs). */
    method Append(left: nat, right: nat, slope: real)
      requires Valid()
      modifies this, buffer
      ensures Valid()
      ensures old(size) < STATIC_ARRAY_SIZE ==>
                size == old(size) + 1 && buffer[..] == old(buffer[..])[old(size) := RangeEntry(left, right, slope)]
      ensures old(size) < STATIC_ARRAY_SIZE ==> Contents() == old(Contents()) + [RangeEntry(left, right, slope)]
      ensures old(size) == STATIC_ARRAY_SIZE ==> size == old(size) && buffer[..] == old(buffer[..])
    {
      if size < STATIC_ARRAY_SIZE {
        buffer[size] := RangeEntry(left, right, slope);
        size := size + 1;
        assert buffer[..size] == old(buffer[..size]) + [RangeEntry(left, right, slope)];
      }
    }
  }

  /** The contents after appending the entries of `es` in order to an array
      holding `c`: entries beyond the capacity are dropped. */
  function AppendAll(c: seq<RangeEntry>, es: seq<RangeEntry>): (r: seq<RangeEntry>)
    requires |c| <= STATIC_ARRAY_SIZE
    ensures |r| <= STATIC_ARRAY_SIZE
    ensures |c| + |es| <= STATIC_ARRAY_SIZE ==> r == c + es
    ensures |c| + |es| >= STATIC_ARRAY_SIZE ==> r == c + es[..STATIC_ARRAY_SIZE - |c|]
    decreases |es|
  {
    if es == [] then c
    else if |c| < STATIC_ARRAY_SIZE then AppendAll(c + [es[0]], es[1..])
    else c
  }

  /** Appending a sequence of entries one `sa_append` at a time leaves the
      array holding `AppendAll` of them. */
  method AppendEach(a: StaticArray, es: seq<RangeEntry>)
    requires a.Valid()
    modifies a, a.buffer
    ensures a.Valid() && a.Contents() == AppendAll(old(a.Contents()), es)
  {
    var i := 0;
    while i < |es|
      invariant 0 <= i <= |es| && a.Valid()
      invariant AppendAll(a.Contents(), es[i..]) == AppendAll(old(a.Contents()), es)
    {
      assert es[i..][1..] == es[i + 1..];
      a.Append(es[i].left, es[i].right, es[i].slope);
      i := i + 1;
    }
  }
}
