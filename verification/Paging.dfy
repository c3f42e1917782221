/** Asking for pages 1, 2, ... for as long as the answers say that there is more. */
module Paging {
  import opened Domain
  import opened Database
  import opened Listing

  datatype Page = Page(users: seq<User>, hasMore: bool)

  /** Where page i starts. */
  function Start(i: nat, limit: nat): nat {
    if i == 0 then 0 else Start(i - 1, limit) + limit
  }

  lemma {:induction false} StartIsProduct(i: nat, limit: nat)
    ensures Start(i, limit) == i * limit
  {
    if i > 0 {
      StartIsProduct(i - 1, limit);
    }
  }

  /** One page, and as many more as what is left over fills. */
  function PagesNeeded(total: nat, limit: nat): (n: nat)
    requires limit > 0
    ensures 1 <= n
    decreases total
  {
    if total <= limit then 1 else 1 + PagesNeeded(total - limit, limit)
  }

  /** A further page is needed exactly as long as rows are left. */
  lemma {:induction false} PagesNeededMeans(total: nat, limit: nat, n: nat)
    requires limit > 0 && n > 0
    ensures n < PagesNeeded(total, limit) <==> Start(n, limit) < total
    decreases total
  {
    assert Start(n, limit) == Start(n - 1, limit) + limit;
    if n > 1 && total > limit {
      PagesNeededMeans(total - limit, limit, n - 1);
    }
  }

  function Flatten(pages: seq<Page>): seq<User> {
    if pages == [] then [] else Flatten(pages[..|pages| - 1]) + pages[|pages| - 1].users
  }

  /** A client asks for page after page as long as the answer says there is more. */
  ghost predicate Crawl(pages: seq<Page>) {
    pages != [] && forall i | 0 <= i < |pages| - 1 :: pages[i].hasMore
  }

  predicate Finished(pages: seq<Page>) {
    pages != [] && !pages[|pages| - 1].hasMore
  }

  // ---- One answer ------------------------------------------------------------------------------

  /** The answer to one request, with this offset instead of the one in p. */
  ghost predicate Answers(t: Table, p: ListParams, le: Collation, arr: seq<User>, page: Page, offset: int) {
    && 0 <= p.limit && 0 <= offset && p.orderBy != ""
    && IsListing(t, p.(offset := offset), le, arr, page.users, page.hasMore, |Selected(t, p.filters)|)
  }

  /** Such an answer, with the total of the selection, is what the replies to the two queries make. */
  lemma QueriesAnswer(t: Table, p: ListParams, le: Collation, arr: seq<User>, page: Page, offset: int, total: nat)
    requires 0 <= p.limit
    ensures Listed(t, p.(offset := offset), le, arr, page.users, page.hasMore, total) <==>
            total == |Selected(t, p.filters)| && Answers(t, p, le, arr, page, offset)
  {
    if offset < 0 {
      NegativeOffsetRefused(t, p.(offset := offset), le, arr, page.users, page.hasMore, total);
    } else {
      ListMeans(t, p.(offset := offset), le, arr, page.users, page.hasMore, total);
    }
  }

  /** What counts is the selection, not how the filters of the request name it. */
  lemma {:induction false} ListingBySelection(t: Table, p: ListParams, p': ListParams, le: Collation,
                                              arr: seq<User>, page: Page)
    requires 0 <= p.limit && 0 <= p'.offset && p' == p.(offset := p'.offset, filters := p'.filters)
    requires Selected(t, p'.filters) == Selected(t, p.filters)
    ensures var total := |Selected(t, p.filters)|;
            IsListing(t, p', le, arr, page.users, page.hasMore, total) <==>
            IsListing(t, p.(offset := p'.offset), le, arr, page.users, page.hasMore, total)
  {
  }

  lemma {:induction false} AnswersBySelection(t: Table, p: ListParams, p': ListParams, le: Collation,
                                              arr: seq<User>, page: Page)
    requires 0 <= p.limit && p' == p.(offset := p'.offset, filters := p'.filters)
    requires Selected(t, p'.filters) == Selected(t, p.filters)
    ensures Listed(t, p', le, arr, page.users, page.hasMore, |Selected(t, p.filters)|) <==>
            Answers(t, p, le, arr, page, p'.offset)
  {
    var total := |Selected(t, p.filters)|;
    if p'.offset < 0 {
      NegativeOffsetRefused(t, p', le, arr, page.users, page.hasMore, total);
    } else {
      ListMeans(t, p', le, arr, page.users, page.hasMore, total);
      ListingBySelection(t, p, p', le, arr, page);
    }
  }

  /** Limits are positive 64-bit numbers, and so is a count. */
  ghost predicate InRange(t: Table, p: ListParams) {
    0 < p.limit < TWO_63 && |Selected(t, p.filters)| < TWO_63
  }

  ghost function Needed(t: Table, p: ListParams): nat
    requires InRange(t, p)
  {
    PagesNeeded(|Selected(t, p.filters)|, p.limit)
  }

  /** The end of the last page is within 64 bits. */
  ghost predicate EndsInRange(t: Table, p: ListParams)
    requires InRange(t, p)
  {
    Needed(t, p) * p.limit < TWO_63
  }

  /** What 64 bits make of the start and the end of page i of n. */
  lemma {:induction false} PageEnds(total: nat, limit: nat, i: nat)
    requires 0 < limit < TWO_63 && total < TWO_63 && i < PagesNeeded(total, limit)
    ensures var n := PagesNeeded(total, limit);
            && Start(i, limit) < TWO_63
            && (i + 1 < n ==> Start(i + 1, limit) < total)
            && (i + 1 == n ==> total <= Start(n, limit) < 2 * TWO_63)
  {
    if 0 < i { PagesNeededMeans(total, limit, i); }
    PagesNeededMeans(total, limit, i + 1);
  }

  lemma Wraps(x: nat)
    requires x < 2 * TWO_63
    ensures if x < TWO_63 then Int64(x) == x else Int64(x) < 0
  {
  }

  /** Up to the last page offsets are exact; after the last page hasMore is wrong, and the next offset
      negative, exactly when its end is not within 64 bits. */
  lemma {:induction false} WrapAround(t: Table, p: ListParams, i: nat)
    requires InRange(t, p) && i <= Needed(t, p)
    ensures var total := |Selected(t, p.filters)|;
            && i * p.limit == Start(i, p.limit)
            && (i < Needed(t, p) ==>
                  && Int64(i * p.limit) == Start(i, p.limit)
                  && (HasMore(p.(offset := Start(i, p.limit)), total) <==> i + 1 < Needed(t, p) || !EndsInRange(t, p)))
            && (i == Needed(t, p) ==> (Int64(i * p.limit) < 0 <==> !EndsInRange(t, p)))
  {
    var total, l, n := |Selected(t, p.filters)|, p.limit, Needed(t, p);
    StartIsProduct(i, l);
    StartIsProduct(n, l);
    PageEnds(total, l, n - 1);
    Wraps(Start(n, l));
    if i < n {
      PageEnds(total, l, i);
      Wraps(Start(i, l));
      Wraps(Start(i + 1, l));
      HasMoreAt(p, total, Start(i, l));
    }
  }

  lemma HasMoreAt(p: ListParams, total: nat, start: nat)
    requires 0 < p.limit
    ensures HasMore(p.(offset := start), total) <==> total > Int64(start + p.limit)
  {
  }

  /** The answers to the requests for pages 1, 2, ... of one listing on an unchanged table, at the
      offsets that 64-bit arithmetic gives. */
  ghost predicate AllAnswer(t: Table, p: ListParams, le: Collation, arrs: seq<seq<User>>, pages: seq<Page>) {
    |arrs| == |pages| &&
    forall i: nat | i < |pages| :: Answers(t, p, le, arrs[i], pages[i], Int64(i * p.limit))
  }

  // ---- Termination -------------------------------------------------------------------------------

  /** What each answer of a crawl is. */
  lemma {:induction false} PageMeans(t: Table, p: ListParams, le: Collation,
                                     arrs: seq<seq<User>>, pages: seq<Page>, i: nat)
    requires InRange(t, p) && Crawl(pages) && AllAnswer(t, p, le, arrs, pages) && i < |pages|
    ensures i < Needed(t, p)
    ensures pages[i].users == Slice(arrs[i], Start(i, p.limit), p.limit)
    ensures pages[i].hasMore <==> i + 1 < Needed(t, p) || !EndsInRange(t, p)
    ensures Arranges(arrs[i], Selected(t, p.filters)) && Sorted(arrs[i], OrderColumn(p.orderBy), p.desc, le)
    decreases i
  {
    assert Answers(t, p, le, arrs[i], pages[i], Int64(i * p.limit));
    if i > 0 {
      PageMeans(t, p, le, arrs, pages, i - 1);
      assert pages[i - 1].hasMore;
    }
    WrapAround(t, p, i);
  }

  /** Asking while there is more never takes more requests than there are pages, and after the last
      page the answer is to stop, exactly when the end of that page is within 64 bits. */
  lemma {:induction false} CrawlStops(t: Table, p: ListParams, le: Collation, arrs: seq<seq<User>>, pages: seq<Page>)
    requires InRange(t, p) && Crawl(pages) && AllAnswer(t, p, le, arrs, pages)
    ensures |pages| <= Needed(t, p)
    ensures Finished(pages) <==> |pages| == Needed(t, p) && EndsInRange(t, p)
  {
    PageMeans(t, p, le, arrs, pages, |pages| - 1);
  }

  /** One arrangement answers the request for any page there is. */
  lemma {:induction false} PageExists(t: Table, p: ListParams, le: Collation, arr: seq<User>, i: nat)
    requires InRange(t, p) && p.orderBy != "" && i < Needed(t, p)
    requires Arranges(arr, Selected(t, p.filters)) && Sorted(arr, OrderColumn(p.orderBy), p.desc, le)
    ensures exists page :: Answers(t, p, le, arr, page, Int64(i * p.limit))
  {
    WrapAround(t, p, i);
    var start := Start(i, p.limit);
    var page := Page(Slice(arr, start, p.limit), HasMore(p.(offset := start), |Selected(t, p.filters)|));
    assert Answers(t, p, le, arr, page, start);
  }

  /** A crawl told that there is more finds an answer to its next request exactly when there is more:
      after a last page that ends beyond 64 bits, the next request is refused. */
  lemma {:induction false} CrawlContinues(t: Table, p: ListParams, le: Collation,
                                          arrs: seq<seq<User>>, pages: seq<Page>)
    requires InRange(t, p) && TotalOrder(le) && Crawl(pages) && AllAnswer(t, p, le, arrs, pages)
    requires !Finished(pages)
    ensures (exists arr, page :: Answers(t, p, le, arr, page, Int64(|pages| * p.limit))) <==>
            |pages| < Needed(t, p)
  {
    var n := |pages|;
    CrawlStops(t, p, le, arrs, pages);
    if n < Needed(t, p) {
      assert Answers(t, p, le, arrs[0], pages[0], Int64(0 * p.limit));
      PageExists(t, p, le, arrs[0], n);
    } else {
      WrapAround(t, p, n);
    }
  }

  /** A crawl of any length up to the last page. */
  lemma {:induction false} CrawlOf(t: Table, p: ListParams, le: Collation, arr: seq<User>, n: nat)
    returns (arrs: seq<seq<User>>, pages: seq<Page>)
    requires InRange(t, p) && p.orderBy != "" && 0 < n <= Needed(t, p)
    requires Arranges(arr, Selected(t, p.filters)) && Sorted(arr, OrderColumn(p.orderBy), p.desc, le)
    ensures |pages| == n && Crawl(pages) && AllAnswer(t, p, le, arrs, pages)
    ensures forall i | 0 <= i < n :: arrs[i] == arr
    decreases n
  {
    arrs, pages := [], [];
    if n > 1 {
      arrs, pages := CrawlOf(t, p, le, arr, n - 1);
      CrawlStops(t, p, le, arrs, pages);
    }
    PageExists(t, p, le, arr, n - 1);
    var page :| Answers(t, p, le, arr, page, Int64((n - 1) * p.limit));
    OneMoreAnswers(t, p, le, arrs, pages, arr, page);
    arrs, pages := arrs + [arr], pages + [page];
  }

  lemma {:induction false} OneMoreAnswers(t: Table, p: ListParams, le: Collation, arrs: seq<seq<User>>,
                                          pages: seq<Page>, arr: seq<User>, page: Page)
    requires AllAnswer(t, p, le, arrs, pages) && Answers(t, p, le, arr, page, Int64(|pages| * p.limit))
    ensures AllAnswer(t, p, le, arrs + [arr], pages + [page])
  {
    forall i: nat | i < |pages| + 1
      ensures Answers(t, p, le, (arrs + [arr])[i], (pages + [page])[i], Int64(i * p.limit))
    {
      if i < |pages| {
        assert Answers(t, p, le, arrs[i], pages[i], Int64(i * p.limit));
      }
    }
  }

  /** Every listing with an order can be read to its end exactly when that end is within 64 bits. */
  lemma {:induction false} CrawlFinishesExactly(t: Table, p: ListParams, le: Collation)
    requires InRange(t, p) && TotalOrder(le)
    ensures (exists arrs, pages :: Crawl(pages) && Finished(pages) && AllAnswer(t, p, le, arrs, pages)) <==>
            p.orderBy != "" && EndsInRange(t, p)
  {
    forall arrs, pages | Crawl(pages) && Finished(pages) && AllAnswer(t, p, le, arrs, pages)
      ensures p.orderBy != "" && EndsInRange(t, p)
    {
      CrawlStops(t, p, le, arrs, pages);
      assert Answers(t, p, le, arrs[0], pages[0], Int64(0 * p.limit));
    }
    if p.orderBy != "" && EndsInRange(t, p) {
      var arr := SortedExists(Selected(t, p.filters), OrderColumn(p.orderBy), p.desc, le);
      var arrs, pages := CrawlOf(t, p, le, arr, Needed(t, p));
      CrawlStops(t, p, le, arrs, pages);
    }
  }

  // ---- Partition ---------------------------------------------------------------------------------

  lemma {:induction false} PrefixFlattens(pages: seq<Page>, arr: seq<User>, limit: nat)
    requires forall i: nat | i < |pages| :: pages[i].users == Slice(arr, Start(i, limit), limit)
    ensures Flatten(pages) == arr[..Min(Start(|pages|, limit), |arr|)]
    decreases |pages|
  {
    if pages != [] {
      var n := |pages| - 1;
      var (rest, start) := (pages[..n], Start(n, limit));
      assert forall i: nat | i < n :: rest[i] == pages[i];
      PrefixFlattens(rest, arr, limit);
      assert Start(|pages|, limit) == start + limit;
      assert Flatten(pages) == arr[..Min(start, |arr|)] + Slice(arr, start, limit);
      SliceExtends(arr, start, limit);
    }
  }

  lemma SliceExtends(arr: seq<User>, start: nat, limit: nat)
    ensures arr[..Min(start, |arr|)] + Slice(arr, start, limit) == arr[..Min(start + limit, |arr|)]
  {
  }

  /** A crawl yields the first rows of the filtered, sorted selection, each once and in order, if the
      database keeps one arrangement; when it has finished, or has asked for every page, all of them. */
  lemma {:induction false} PaginationPartition(t: Table, p: ListParams, le: Collation,
                                               arrs: seq<seq<User>>, pages: seq<Page>)
    requires InRange(t, p) && Crawl(pages) && AllAnswer(t, p, le, arrs, pages)
    requires forall i | 0 <= i < |arrs| :: arrs[i] == arrs[0]
    ensures var total := |Selected(t, p.filters)|;
            Flatten(pages) == arrs[0][..Min(|pages| * p.limit, |arrs[0]|)] && |arrs[0]| == total
    ensures Finished(pages) ==> |pages| == Needed(t, p) && Flatten(pages) == arrs[0]
    ensures |pages| == Needed(t, p) ==>
              && Arranges(Flatten(pages), Selected(t, p.filters))
              && Sorted(Flatten(pages), OrderColumn(p.orderBy), p.desc, le)
              && |Selected(t, p.filters)| <= |pages| * p.limit
              && (|pages| > 1 ==> (|pages| - 1) * p.limit < |Selected(t, p.filters)|)
  {
    var rows, n := Selected(t, p.filters), |pages|;
    forall i: nat | i < n ensures pages[i].users == Slice(arrs[0], Start(i, p.limit), p.limit) {
      PageMeans(t, p, le, arrs, pages, i);
    }
    PageMeans(t, p, le, arrs, pages, 0);
    PrefixFlattens(pages, arrs[0], p.limit);
    ArrangementSize(arrs[0], rows);
    StartIsProduct(n, p.limit);
    CrawlStops(t, p, le, arrs, pages);
    PagesNeededMeans(|rows|, p.limit, n);
    if n > 1 {
      StartIsProduct(n - 1, p.limit);
      PagesNeededMeans(|rows|, p.limit, n - 1);
    }
    assert n == Needed(t, p) ==> Flatten(pages) == arrs[0];
  }

  /** Ordered by email or nickname no such assumption is needed: the separate answers fit together. */
  lemma {:induction false} UniqueOrderPagination(t: Table, p: ListParams, le: Collation,
                                                 arrs: seq<seq<User>>, pages: seq<Page>)
    requires TableOk(t) && TotalOrder(le) && (p.orderBy == "email" || p.orderBy == "nickname")
    requires InRange(t, p) && Crawl(pages) && AllAnswer(t, p, le, arrs, pages)
    ensures var total := |Selected(t, p.filters)|;
            Flatten(pages) == arrs[0][..Min(|pages| * p.limit, |arrs[0]|)] && |arrs[0]| == total
    ensures Finished(pages) ==> |pages| == Needed(t, p)
    ensures |pages| == Needed(t, p) ==>
              && Arranges(Flatten(pages), Selected(t, p.filters))
              && Sorted(Flatten(pages), p.orderBy, p.desc, le)
              && |Selected(t, p.filters)| <= |pages| * p.limit
              && (|pages| > 1 ==> (|pages| - 1) * p.limit < |Selected(t, p.filters)|)
  {
    var rows := Selected(t, p.filters);
    UniqueColumnsSeparate(t, p.filters, p.orderBy);
    PageMeans(t, p, le, arrs, pages, 0);
    forall i | 0 <= i < |arrs| ensures arrs[i] == arrs[0] {
      PageMeans(t, p, le, arrs, pages, i);
      SortedUnique(arrs[i], arrs[0], rows, p.orderBy, p.desc, le);
    }
    PaginationPartition(t, p, le, arrs, pages);
  }
}
