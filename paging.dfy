/** Java `int`, Spring Data's `PageRequest.of(page, size)` and the slice of
    an ordered result that a page request selects. */
module Paging {

  /** Java's 32-bit `int`, the type of the page and size parameters. */
  newtype int32 = x: int | -0x8000_0000 <= x < 0x8000_0000

  /** A page of results with its page number and page size; the total
      element and page counts of Spring's `Page` are not modelled. */
  datatype Page<T> = Page(content: seq<T>, number: int, size: int)

  /** `PageRequest.of(page, size)` throws IllegalArgumentException unless
      the page index is non-negative and the size is positive. */
  predicate ValidRequest(page: int32, size: int32)
  {
    page >= 0 && size >= 1
  }

  function Min(a: int, b: int): int
  {
    if a <= b then a else b
  }

  /** The rank of the first element on page `page` of pages of `size`
      (Spring computes it as a `long`, in which the product of two `int`s
      is exact). */
  function Offset(page: int32, size: int32): nat
    requires ValidRequest(page, size)
  {
    page as int * size as int
  }

  /** The repository query passes the offset to JPA as its first result
      index, a Java `int`; a page whose offset exceeds Integer.MAX_VALUE
      cannot be run and the query throws InvalidDataAccessApiUsageException. */
  predicate OffsetFits(page: int32, size: int32)
    requires ValidRequest(page, size)
  {
    Offset(page, size) <= 0x7FFF_FFFF
  }

  /** The elements of `xs` at positions `[offset, offset + size)`, cut off at
      the end of `xs`. */
  function Slice<T>(xs: seq<T>, offset: nat, size: nat): (r: seq<T>)
    requires size >= 1
    ensures |r| == if offset >= |xs| then 0 else Min(size, |xs| - offset)
    ensures forall i :: 0 <= i < |r| ==> offset + i < |xs| && r[i] == xs[offset + i]
  {
    if offset >= |xs| then [] else xs[offset .. Min(offset + size, |xs|)]
  }

  /** Every rank `j` that is a Java `int` is covered by page `j / size`, a
      valid page request whose offset fits. */
  lemma RankHasPage(j: nat, size: int32)
    requires size >= 1 && j <= 0x7FFF_FFFF
    ensures var page := (j / size as int) as int32;
      && ValidRequest(page, size) && OffsetFits(page, size)
      && Offset(page, size) <= j < Offset(page, size) + size as int
  {
    var n, q := size as int, j / size as int;
    assert q * n + j % n == j && 0 <= j % n < n;
    assert q >= 0;
    NoSmallerThanFactor(q, n);
    assert Offset(q as int32, size) == q * n;
  }

  lemma {:induction false} NoSmallerThanFactor(q: nat, n: int)
    requires n >= 1
    ensures q * n >= q
  {
    if q > 0 {
      NoSmallerThanFactor(q - 1, n);
      assert q * n == (q - 1) * n + n;
    }
  }

}
