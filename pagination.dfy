/** The page-slicing helper of the feeds (`paginator_create`): an ordered
    collection is cut into pages of POSTS_LIMIT items, and the page named by the
    request's `page` query parameter is picked, following the rules of Django's
    `Paginator.get_page` with no orphans and an allowed empty first page. */
module Pagination {
  import opened Collections

  /** Number of items on one page. */
  const POSTS_LIMIT: nat := 10

  /** The `page` query parameter as the request carries it: absent, present but
      not an integer, or an integer. */
  datatype PageQuery = Absent | NotAnInteger | Number(n: int)

  /** A page object: the items shown, the 1-based page number and the page count. */
  datatype Page<T> = Page(items: seq<T>, number: nat, numPages: nat)

  function Min(a: int, b: int): int { if a <= b then a else b }

  /** How many pages `count` items fill; an empty collection still has one (empty) page. */
  function NumPages(count: nat): (r: nat)
    ensures r >= 1
    ensures count == 0 ==> r == 1
    ensures count > 0 ==> (r - 1) * POSTS_LIMIT < count <= r * POSTS_LIMIT
  {
    if count == 0 then 1 else (count + POSTS_LIMIT - 1) / POSTS_LIMIT
  }

  /** The page number `get_page` settles on: an absent or non-integer parameter
      means page 1, and an integer outside 1..numPages means the last page. */
  function PageNumber(q: PageQuery, numPages: nat): (k: nat)
    requires numPages >= 1
    ensures 1 <= k <= numPages
  {
    match q
    case Absent => 1
    case NotAnInteger => 1
    case Number(n) => if 1 <= n <= numPages then n else numPages
  }

  /** The items of page `k` (1-based): the contiguous run starting at (k-1)*POSTS_LIMIT. */
  function PageSlice<T>(items: seq<T>, k: nat): (r: seq<T>)
    requires 1 <= k <= NumPages(|items|)
  {
    items[(k - 1) * POSTS_LIMIT .. Min(k * POSTS_LIMIT, |items|)]
  }

  /** `paginator_create`: the page object for the request's `page` parameter. */
  function Paginate<T>(items: seq<T>, q: PageQuery): (page: Page<T>)
    ensures page.numPages == NumPages(|items|)
    ensures 1 <= page.number <= page.numPages
    ensures |page.items| <= POSTS_LIMIT
    ensures page.items == items[(page.number - 1) * POSTS_LIMIT .. Min(page.number * POSTS_LIMIT, |items|)]
    ensures q.Absent? || q.NotAnInteger? ==> page.number == 1
    ensures q.Number? && 1 <= q.n <= page.numPages ==> page.number == q.n
    ensures q.Number? && q.n > page.numPages ==> page.number == page.numPages
  {
    var n := NumPages(|items|);
    var k := PageNumber(q, n);
    Page(PageSlice(items, k), k, n)
  }

  /** A page shows only items of the collection ... */
  lemma PageItemsFromCollection<T>(items: seq<T>, q: PageQuery)
    ensures forall x :: x in Paginate(items, q).items ==> x in items
  {
    var page := Paginate(items, q);
    SliceMembers(items, (page.number - 1) * POSTS_LIMIT, Min(page.number * POSTS_LIMIT, |items|));
  }

  /** ... and in the collection's order. */
  lemma PageKeepsOrder<T>(items: seq<T>, q: PageQuery, key: T -> int)
    requires SortedBy(items, key)
    ensures SortedBy(Paginate(items, q).items, key)
  {
    var page := Paginate(items, q);
    SliceSorted(items, (page.number - 1) * POSTS_LIMIT, Min(page.number * POSTS_LIMIT, |items|), key);
  }

  /** Every page except the last is full. */
  lemma {:induction false} FullPagesBeforeLast<T>(items: seq<T>, k: nat)
    requires 1 <= k < NumPages(|items|)
    ensures |Paginate(items, Number(k)).items| == POSTS_LIMIT
  {
    var n := NumPages(|items|);
    assert k * POSTS_LIMIT <= (n - 1) * POSTS_LIMIT;
  }

  /** A page number of zero or below falls into the EmptyPage branch of
      `get_page`, which answers with the last page (not the first). */
  lemma NonPositivePageIsLast<T>(items: seq<T>, n: int)
    requires n < 1
    ensures Paginate(items, Number(n)).number == NumPages(|items|)
    ensures Paginate(items, Number(n)).items == Paginate(items, Number(NumPages(|items|))).items
  {
  }

  /** The last page (number k) holds the remainder: everything after the full pages. */
  lemma LastPageIsRemainder<T>(items: seq<T>, k: nat)
    requires k == NumPages(|items|)
    ensures Paginate(items, Number(k)).items == items[(k - 1) * POSTS_LIMIT ..]
  {
    assert Paginate(items, Number(k)).number == k;
    assert Min(k * POSTS_LIMIT, |items|) == |items|;
  }

  /** Thirteen items give a full first page of ten, also when no page is asked for ... */
  lemma ThirteenItemsFirstPage<T>(items: seq<T>)
    requires |items| == 13
    ensures NumPages(|items|) == 2
    ensures |Paginate(items, Number(1)).items| == 10
    ensures |Paginate(items, Absent).items| == 10
  {
    assert NumPages(13) == 2;
    FullPagesBeforeLast(items, 1);
  }

  /** ... and a second page holding the other three. */
  lemma ThirteenItemsSecondPage<T>(items: seq<T>)
    requires |items| == 13
    ensures Paginate(items, Number(2)).items == items[10..]
    ensures |Paginate(items, Number(2)).items| == 3
  {
    assert NumPages(13) == 2;
    var second := Paginate(items, Number(2));
    LastPageIsRemainder(items, 2);
    assert second.items == items[(2 - 1) * POSTS_LIMIT ..];
    assert (2 - 1) * POSTS_LIMIT == 10;
  }

  /** The pages numbered k, k+1, ..., NumPages(|items|). */
  function PagesFrom<T>(items: seq<T>, k: nat): (pages: seq<seq<T>>)
    requires 1 <= k
    decreases NumPages(|items|) + 1 - k
  {
    if k > NumPages(|items|) then []
    else [Paginate(items, Number(k)).items] + PagesFrom(items, k + 1)
  }

  /** All pages in order. */
  function Pages<T>(items: seq<T>): (pages: seq<seq<T>>)
  {
    PagesFrom(items, 1)
  }

  /** The pages from k on together are exactly the items from (k-1)*POSTS_LIMIT on. */
  lemma {:induction false} PagesFromCover<T>(items: seq<T>, k: nat)
    requires 1 <= k <= NumPages(|items|)
    ensures Flatten(PagesFrom(items, k)) == items[(k - 1) * POSTS_LIMIT ..]
    decreases NumPages(|items|) - k
  {
    var n := NumPages(|items|);
    var page := Paginate(items, Number(k)).items;
    if k == n {
      assert PagesFrom(items, k + 1) == [];
      assert Flatten(PagesFrom(items, k)) == page + Flatten(PagesFrom(items, k + 1));
    } else {
      assert k * POSTS_LIMIT <= (n - 1) * POSTS_LIMIT;
      PagesFromCover(items, k + 1);
      assert page == items[(k - 1) * POSTS_LIMIT .. k * POSTS_LIMIT];
      assert items[(k - 1) * POSTS_LIMIT ..] == page + items[k * POSTS_LIMIT ..];
    }
  }

  /** Concatenating pages 1..NumPages reproduces the input: no item is lost,
      duplicated or reordered, and there are exactly NumPages pages. */
  lemma {:induction false} PagesReassemble<T>(items: seq<T>)
    ensures Flatten(Pages(items)) == items
    ensures |Pages(items)| == NumPages(|items|)
  {
    PagesFromCover(items, 1);
    PagesFromLength(items, 1);
  }

  lemma {:induction false} PagesFromLength<T>(items: seq<T>, k: nat)
    requires 1 <= k <= NumPages(|items|) + 1
    ensures |PagesFrom(items, k)| == NumPages(|items|) + 1 - k
    decreases NumPages(|items|) + 1 - k
  {
    if k <= NumPages(|items|) {
      PagesFromLength(items, k + 1);
    }
  }
}
