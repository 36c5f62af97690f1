/** Pages of a list, counted from 1. */
module Paging {
  import opened Sequences

  /** `OFFSET (page - 1) * size LIMIT size`. */
  function PageOf<T>(s: seq<T>, page: nat, size: nat): seq<T>
    requires page > 0
  {
    Take(Drop(s, (page - 1) * size), size)
  }

  /** The first `pages` pages, one after another. */
  function Pages<T>(s: seq<T>, pages: nat, size: nat): seq<T> {
    if pages == 0 then [] else Pages(s, pages - 1, size) + PageOf(s, pages, size)
  }

  /** Pages neither repeat nor skip an element. */
  lemma {:induction false} PagesConcatenate<T>(s: seq<T>, pages: nat, size: nat)
    ensures Pages(s, pages, size) == Take(s, pages * size)
  {
    if pages == 0 {
    } else {
      PagesConcatenate(s, pages - 1, size);
      PageAfter(s, (pages - 1) * size, size);
      assert pages * size == (pages - 1) * size + size;
    }
  }

  lemma PageAfter<T>(s: seq<T>, start: nat, size: nat)
    ensures Take(s, start) + Take(Drop(s, start), size) == Take(s, start + size)
  {
  }

  /** A page is full exactly as long as the list reaches its end. */
  lemma PageLength<T>(s: seq<T>, page: nat, size: nat)
    requires page > 0
    ensures |PageOf(s, page, size)| == size <==> page * size <= |s| || size == 0
    ensures |PageOf(s, page, size)| <= size
  {
    assert page * size == (page - 1) * size + size;
  }

  /** All pages up to the first one that is not full hold the whole list. */
  lemma LastPage<T>(s: seq<T>, page: nat, size: nat)
    requires page > 0 && |PageOf(s, page, size)| < size
    ensures Pages(s, page, size) == s
  {
    PagesConcatenate(s, page, size);
    PageLength(s, page, size);
  }
}
