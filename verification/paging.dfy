/** Pages of the book list and the paged response body built from one. */
module Paging {
  import opened Mapper

  /** A page of a listing: its content, its zero-based number, the page size and the total count. */
  datatype Page<T> = Page(content: seq<T>, number: nat, size: nat, totalElements: nat)

  /** `PagedBookResponse`. */
  datatype PagedBookResponse = PagedBookResponse(
    books: seq<BookResponse>,
    currentPage: int,
    totalPages: int,
    totalBooks: int)

  function Min(a: int, b: int): int {
    if a <= b then a else b
  }

  /**
   * The number of pages of `size` items needed for `total` items, that is
   * ceil(total / size): zero exactly when there are no items.
   */
  function TotalPages(total: nat, size: nat): (n: nat)
    requires size >= 1
    ensures n * size >= total
    ensures n > 0 ==> (n - 1) * size < total
    ensures n == 0 <==> total == 0
  {
    var n := (total + size - 1) / size;
    assert n * size + (total + size - 1) % size == total + size - 1;
    assert (n - 1) * size == n * size - size;
    n
  }

  /** Page `page` holds items exactly when `page` is below the page count. */
  lemma {:induction false} PageBelowTotal(total: nat, size: nat, page: nat)
    requires size >= 1
    ensures page < TotalPages(total, size) <==> page * size < total
  {
    var n := TotalPages(total, size);
    if page < n {
      MulMonotone(page, n - 1, size);
    } else {
      MulMonotone(n, page, size);
    }
  }

  /** Multiplication by a natural number keeps order. */
  lemma MulMonotone(a: nat, b: nat, c: nat)
    requires a <= b
    ensures a * c <= b * c
  {
  }

  /**
   * The items of page `page`, in the store's order: at most `size` of them,
   * item `i` of the page being item `page * size + i` of the listing, none
   * beyond the last page and a full page before it.
   */
  function PageOf<T>(items: seq<T>, page: nat, size: nat): (r: seq<T>)
    requires size >= 1
    ensures |r| <= size
    ensures forall i | 0 <= i < |r| :: page * size + i < |items| && r[i] == items[page * size + i]
    ensures r != [] <==> page < TotalPages(|items|, size)
    ensures page + 1 < TotalPages(|items|, size) ==> |r| == size
  {
    PageBelowTotal(|items|, size, page);
    PageBelowTotal(|items|, size, page + 1);
    assert (page + 1) * size == page * size + size;
    items[Min(page * size, |items|)..Min(page * size + size, |items|)]
  }

  /** The pages `0` to `k - 1` of a listing, concatenated. */
  function Pages<T>(items: seq<T>, size: nat, k: nat): seq<T>
    requires size >= 1
  {
    if k == 0 then [] else Pages(items, size, k - 1) + PageOf(items, k - 1, size)
  }

  lemma {:induction false} PagesArePrefix<T>(items: seq<T>, size: nat, k: nat)
    requires size >= 1
    ensures Pages(items, size, k) == items[..Min(k * size, |items|)]
  {
    if k > 0 {
      PagesArePrefix(items, size, k - 1);
      var m := (k - 1) * size;
      assert k * size == m + size;
      var lo := Min(m, |items|);
      var hi := Min(m + size, |items|);
      assert PageOf(items, k - 1, size) == items[lo..hi];
      assert items[..lo] + items[lo..hi] == items[..hi];
    }
  }

  /** Concatenating every page gives back the whole listing, in order and nothing else. */
  lemma {:induction false} AllPagesCoverListing<T>(items: seq<T>, size: nat)
    requires size >= 1
    ensures Pages(items, size, TotalPages(|items|, size)) == items
  {
    PagesArePrefix(items, size, TotalPages(|items|, size));
  }

  /**
   * `PagedBookResponse.from`: the page's content in order, its number, its
   * page count ceil(total / size), and the total count across all pages.
   */
  function From(page: Page<BookResponse>): (r: PagedBookResponse)
    requires page.size >= 1
    ensures r.books == page.content
    ensures r.currentPage == page.number
    ensures r.totalBooks == page.totalElements
    ensures r.totalPages * page.size >= r.totalBooks
    ensures r.totalPages > 0 ==> (r.totalPages - 1) * page.size < r.totalBooks
    ensures r.totalPages == 0 <==> r.totalBooks == 0
  {
    PagedBookResponse(page.content, page.number, TotalPages(page.totalElements, page.size), page.totalElements)
  }

  /** Three books at page size 2 make two pages; no books make no pages. */
  lemma TotalPagesExamples()
    ensures TotalPages(3, 2) == 2
    ensures TotalPages(0, 10) == 0
  {
  }
}
