/** Clients of both APIs that ask for page after page. */
module Crawls {
  import opened Domain
  import opened Database
  import opened Sql
  import opened Listing
  import opened Paging
  import opened Handlers

  function Without(q: Pairs, key: string): (r: Pairs)
    ensures forall pair :: pair in r <==> pair in q && pair.0 != key
    ensures Distinct(q) ==> Distinct(r)
  {
    if q == [] then []
    else if q[0].0 == key then Without(q[1..], key)
    else [q[0]] + Without(q[1..], key)
  }

  lemma {:induction false} WithoutLooksUp(q: Pairs, key: string, other: string)
    requires other != key
    ensures Lookup(Without(q, key), other) == Lookup(q, other)
  {
    if q != [] {
      WithoutLooksUp(q[1..], key, other);
    }
  }

  /** The same request for another page. */
  function WithPage(q: QueryString, page: nat): QueryString {
    [("page", Dec(page))] + Without(q, "page")
  }

  lemma {:induction false} WithPageLooksUp(q: QueryString, page: nat, key: string)
    ensures Lookup(WithPage(q, page), key) == if key == "page" then Dec(page) else Lookup(q, key)
  {
    var q' := WithPage(q, page);
    assert q'[0] == ("page", Dec(page)) && q'[1..] == Without(q, "page");
    if key != "page" {
      WithoutLooksUp(q, "page", key);
    }
  }

  /** The page is not a condition. */
  lemma {:induction false} WithPageSelects(t: Table, q: QueryString, page: nat)
    ensures Selected(t, RestParams(WithPage(q, page)).filters) == Selected(t, RestParams(q).filters)
  {
    var q' := WithPage(q, page);
    RestSelects(t, q);
    RestSelects(t, q');
    assert "page" in CONTROLS;
    assert forall field, value | field in ALLOWED :: (field, value) in q' <==> (field, value) in q;
    assert forall u: User :: Asked(u, q') <==> Asked(u, q);
  }

  lemma {:induction false} WithPageNumber(q: QueryString, page: nat)
    requires 0 < page < TWO_63
    ensures Positive(Lookup(WithPage(q, page), "page"), 1) == page
  {
    WithPageLooksUp(q, page, "page");
    DecParses(page);
  }

  /** The same controls but for the page. */
  predicate SameControls(q: Pairs, q': Pairs) {
    && Lookup(q', "limit") == Lookup(q, "limit")
    && Lookup(q', "order_by") == Lookup(q, "order_by")
    && Lookup(q', "order_desc") == Lookup(q, "order_desc")
  }

  lemma {:induction false} WithPageControls(q: QueryString, page: nat)
    ensures SameControls(q, WithPage(q, page))
  {
    WithPageLooksUp(q, page, "limit");
    WithPageLooksUp(q, page, "order_by");
    WithPageLooksUp(q, page, "order_desc");
  }

  /** It has the same limit and order, and the offset that 64-bit arithmetic gives. */
  lemma {:induction false} WithPageParams(q: QueryString, q': QueryString, page: nat)
    requires SameControls(q, q') && page > 0 && Positive(Lookup(q', "page"), 1) == page
    ensures var p, p' := RestParams(q), RestParams(q');
            p' == p.(offset := Int64((page - 1) * p.limit), filters := p'.filters)
  {
  }

  /** It selects the same rows in the same order, from another offset. */
  lemma {:induction false} WithPageMeans(t: Table, q: QueryString, i: nat)
    requires i + 1 < TWO_63
    ensures var p, p' := RestParams(q), RestParams(WithPage(q, i + 1));
            && p' == p.(offset := Int64(i * p.limit), filters := p'.filters)
            && Selected(t, p'.filters) == Selected(t, p.filters)
  {
    WithPageNumber(q, i + 1);
    WithPageControls(q, i + 1);
    WithPageParams(q, WithPage(q, i + 1), i + 1);
    WithPageSelects(t, q, i + 1);
  }

  /** The number of pages that so many rows fill, and whether the last one ends within 64 bits. */
  ghost predicate LastPageInRange(total: nat, limit: nat)
    requires limit > 0
  {
    PagesNeeded(total, limit) * limit < TWO_63
  }

  // ---- REST --------------------------------------------------------------------------------------

  /** The answer to a REST request for page i + 1. */
  ghost predicate RestAnswer(t: Table, q: QueryString, le: Collation, arr: seq<User>, page: Page, i: nat) {
    Listed(t, RestParams(WithPage(q, i + 1)), le, arr, page.users, page.hasMore, |RestSelection(t, q)|)
  }

  lemma {:induction false} RestAnswerMeans(t: Table, q: QueryString, le: Collation, arr: seq<User>, page: Page, i: nat)
    requires i + 1 < TWO_63
    ensures var p := RestParams(q);
            RestAnswer(t, q, le, arr, page, i) <==> Answers(t, p, le, arr, page, Int64(i * p.limit))
  {
    WithPageMeans(t, q, i);
    RestSelects(t, q);
    AnswersBySelection(t, RestParams(q), RestParams(WithPage(q, i + 1)), le, arr, page);
  }

  /** The answers to REST requests for pages 1, 2, ..., as far as a query string can number them. */
  ghost predicate RestAnswers(t: Table, q: QueryString, le: Collation, arrs: seq<seq<User>>, pages: seq<Page>) {
    |arrs| == |pages| < TWO_63 && forall i: nat | i < |pages| :: RestAnswer(t, q, le, arrs[i], pages[i], i)
  }

  lemma {:induction false} RestAnswersMean(t: Table, q: QueryString, le: Collation,
                                           arrs: seq<seq<User>>, pages: seq<Page>)
    requires |pages| < TWO_63
    ensures RestAnswers(t, q, le, arrs, pages) <==> AllAnswer(t, RestParams(q), le, arrs, pages)
  {
    forall i: nat | i < |pages| && i < |arrs|
      ensures RestAnswer(t, q, le, arrs[i], pages[i], i) <==>
              Answers(t, RestParams(q), le, arrs[i], pages[i], Int64(i * RestParams(q).limit))
    {
      RestAnswerMeans(t, q, le, arrs[i], pages[i], i);
    }
  }

  function RestLimit(q: QueryString): nat {
    Positive(Lookup(q, "limit"), 10)
  }

  /** A REST client that asks while there is more is told to stop after the last page, never before or
      later, exactly when the end of that page is within 64 bits. */
  lemma {:induction false} RestCrawlStops(t: Table, q: QueryString, le: Collation,
                                          arrs: seq<seq<User>>, pages: seq<Page>)
    requires |RestSelection(t, q)| < TWO_63
    requires Crawl(pages) && RestAnswers(t, q, le, arrs, pages)
    ensures var (total, limit) := (|RestSelection(t, q)|, RestLimit(q));
            && |pages| <= PagesNeeded(total, limit)
            && (Finished(pages) <==> |pages| == PagesNeeded(total, limit) && LastPageInRange(total, limit))
  {
    RestSelects(t, q);
    RestAnswersMean(t, q, le, arrs, pages);
    CrawlStops(t, RestParams(q), le, arrs, pages);
  }

  /** And it can reach that end exactly then. */
  lemma {:induction false} RestCrawlFinishesExactly(t: Table, q: QueryString, le: Collation)
    requires TotalOrder(le) && |RestSelection(t, q)| < TWO_63
    ensures (exists arrs, pages :: Crawl(pages) && Finished(pages) && RestAnswers(t, q, le, arrs, pages)) <==>
            LastPageInRange(|RestSelection(t, q)|, RestLimit(q))
  {
    var p := RestParams(q);
    RestSelects(t, q);
    CrawlFinishesExactly(t, p, le);
    if EndsInRange(t, p) {
      assert p.orderBy != "";
      var arrs, pages :| Crawl(pages) && Finished(pages) && AllAnswer(t, p, le, arrs, pages);
      CrawlStops(t, p, le, arrs, pages);
      FewPages(Needed(t, p), p.limit);
      RestAnswersMean(t, q, le, arrs, pages);
    }
    forall arrs, pages | Crawl(pages) && Finished(pages) && RestAnswers(t, q, le, arrs, pages) ensures EndsInRange(t, p) {
      RestCrawlStops(t, q, le, arrs, pages);
    }
  }

  lemma FewPages(n: nat, limit: nat)
    requires 0 < limit && n * limit < TWO_63
    ensures n < TWO_63
  {
  }

  /** The pages hold the first of the rows asked for, once each and in the order asked for, and in the
      end all of them, if the database keeps one arrangement. */
  lemma {:induction false} RestPagination(t: Table, q: QueryString, le: Collation,
                                          arrs: seq<seq<User>>, pages: seq<Page>, arr: seq<User>)
    requires |RestSelection(t, q)| < TWO_63
    requires Crawl(pages) && RestAnswers(t, q, le, arrs, pages)
    requires forall i | 0 <= i < |arrs| :: arrs[i] == arr
    ensures var p := RestParams(q);
            && Arranges(arr, RestSelection(t, q)) && Sorted(arr, OrderColumn(p.orderBy), p.desc, le)
            && Flatten(pages) == arr[..Min(Start(|pages|, RestLimit(q)), |arr|)]
            && (Finished(pages) ==> Flatten(pages) == arr)
  {
    var p := RestParams(q);
    RestSelects(t, q);
    RestAnswersMean(t, q, le, arrs, pages);
    PaginationPartition(t, p, le, arrs, pages);
    PageMeans(t, p, le, arrs, pages, 0);
    StartIsProduct(|pages|, p.limit);
  }

  // ---- gRPC --------------------------------------------------------------------------------------

  lemma {:induction false} GrpcPageMeans(limit: Int32, filters: seq<Filter>, orderBy: string, desc: bool, i: nat)
    requires i + 1 < TWO_31
    ensures var p := GrpcParams(1, limit, filters, orderBy, desc);
            GrpcParams(i + 1, limit, filters, orderBy, desc) == p.(offset := Int64(i * p.limit))
  {
  }

  /** The answer to a gRPC request for page i + 1. */
  ghost predicate GrpcAnswer(t: Table, limit: Int32, filters: seq<Filter>, orderBy: string, desc: bool,
                             le: Collation, arr: seq<User>, page: Page, i: nat)
    requires i + 1 < TWO_31
  {
    Listed(t, GrpcParams(i + 1, limit, filters, orderBy, desc), le, arr, page.users, page.hasMore,
           |GrpcSelection(t, filters)|)
  }

  lemma {:induction false} GrpcAnswerMeans(t: Table, limit: Int32, filters: seq<Filter>, orderBy: string, desc: bool,
                                           le: Collation, arr: seq<User>, page: Page, i: nat)
    requires i + 1 < TWO_31
    ensures var p := GrpcParams(1, limit, filters, orderBy, desc);
            GrpcAnswer(t, limit, filters, orderBy, desc, le, arr, page, i) <==>
            Answers(t, p, le, arr, page, Int64(i * p.limit))
  {
    var p := GrpcParams(1, limit, filters, orderBy, desc);
    GrpcPageMeans(limit, filters, orderBy, desc, i);
    GrpcSelects(t, 1, limit, filters, orderBy, desc);
    QueriesAnswer(t, p, le, arr, page, Int64(i * p.limit), |GrpcSelection(t, filters)|);
  }

  /** The answers to gRPC requests for pages 1, 2, ..., as far as an int32 can number them. */
  ghost predicate GrpcAnswers(t: Table, limit: Int32, filters: seq<Filter>, orderBy: string, desc: bool,
                              le: Collation, arrs: seq<seq<User>>, pages: seq<Page>)
  {
    && |arrs| == |pages| < TWO_31
    && forall i: nat | i < |pages| :: GrpcAnswer(t, limit, filters, orderBy, desc, le, arrs[i], pages[i], i)
  }

  lemma {:induction false} GrpcAnswersMean(t: Table, limit: Int32, filters: seq<Filter>, orderBy: string, desc: bool,
                                           le: Collation, arrs: seq<seq<User>>, pages: seq<Page>)
    requires |arrs| == |pages| < TWO_31
    ensures GrpcAnswers(t, limit, filters, orderBy, desc, le, arrs, pages) <==>
            AllAnswer(t, GrpcParams(1, limit, filters, orderBy, desc), le, arrs, pages)
  {
    var p := GrpcParams(1, limit, filters, orderBy, desc);
    forall i: nat | i < |pages|
      ensures GrpcAnswer(t, limit, filters, orderBy, desc, le, arrs[i], pages[i], i) <==>
              Answers(t, p, le, arrs[i], pages[i], Int64(i * p.limit))
    {
      GrpcAnswerMeans(t, limit, filters, orderBy, desc, le, arrs[i], pages[i], i);
    }
  }

  /** A gRPC client that asks while there is more is told to stop after the last page, and not before. */
  lemma {:induction false} GrpcCrawlStops(t: Table, limit: Int32, filters: seq<Filter>, orderBy: string, desc: bool,
                                          le: Collation, arrs: seq<seq<User>>, pages: seq<Page>)
    requires |GrpcSelection(t, filters)| < TWO_63
    requires Crawl(pages) && GrpcAnswers(t, limit, filters, orderBy, desc, le, arrs, pages)
    ensures var needed := PagesNeeded(|GrpcSelection(t, filters)|, PageSize(limit));
            |pages| <= needed && (Finished(pages) <==> |pages| == needed)
  {
    var p := GrpcParams(1, limit, filters, orderBy, desc);
    GrpcSelects(t, 1, limit, filters, orderBy, desc);
    GrpcAnswersMean(t, limit, filters, orderBy, desc, le, arrs, pages);
    CrawlStops(t, p, le, arrs, pages);
    ProductBound(|pages|, p.limit, TWO_31);
  }

  /** And it can reach that end exactly when it names an order and an int32 can number the last page. */
  lemma {:induction false} GrpcCrawlFinishesExactly(t: Table, limit: Int32, filters: seq<Filter>, orderBy: string,
                                                    desc: bool, le: Collation)
    requires TotalOrder(le) && |GrpcSelection(t, filters)| < TWO_63
    ensures (exists arrs, pages :: Crawl(pages) && Finished(pages)
                                   && GrpcAnswers(t, limit, filters, orderBy, desc, le, arrs, pages)) <==>
            orderBy != "" && PagesNeeded(|GrpcSelection(t, filters)|, PageSize(limit)) < TWO_31
  {
    var p := GrpcParams(1, limit, filters, orderBy, desc);
    GrpcSelects(t, 1, limit, filters, orderBy, desc);
    CrawlFinishesExactly(t, p, le);
    if orderBy != "" && Needed(t, p) < TWO_31 {
      ProductBound(Needed(t, p), p.limit, TWO_31);
      var arrs, pages :| Crawl(pages) && Finished(pages) && AllAnswer(t, p, le, arrs, pages);
      CrawlStops(t, p, le, arrs, pages);
      GrpcAnswersMean(t, limit, filters, orderBy, desc, le, arrs, pages);
    }
    forall arrs, pages | Crawl(pages) && Finished(pages)
                         && GrpcAnswers(t, limit, filters, orderBy, desc, le, arrs, pages)
      ensures orderBy != "" && Needed(t, p) < TWO_31
    {
      GrpcAnswersMean(t, limit, filters, orderBy, desc, le, arrs, pages);
      GrpcCrawlStops(t, limit, filters, orderBy, desc, le, arrs, pages);
    }
  }

  /** The pages hold the first of the rows asked for, once each and in the order asked for, and in the
      end all of them, if the database keeps one arrangement. */
  lemma {:induction false} GrpcPagination(t: Table, limit: Int32, filters: seq<Filter>, orderBy: string, desc: bool,
                                          le: Collation, arrs: seq<seq<User>>, pages: seq<Page>, arr: seq<User>)
    requires |GrpcSelection(t, filters)| < TWO_63
    requires Crawl(pages) && GrpcAnswers(t, limit, filters, orderBy, desc, le, arrs, pages)
    requires forall i | 0 <= i < |arrs| :: arrs[i] == arr
    ensures Arranges(arr, GrpcSelection(t, filters)) && Sorted(arr, OrderColumn(orderBy), desc, le)
    ensures Flatten(pages) == arr[..Min(Start(|pages|, PageSize(limit)), |arr|)]
    ensures Finished(pages) ==> Flatten(pages) == arr
  {
    var p := GrpcParams(1, limit, filters, orderBy, desc);
    GrpcSelects(t, 1, limit, filters, orderBy, desc);
    GrpcAnswersMean(t, limit, filters, orderBy, desc, le, arrs, pages);
    PaginationPartition(t, p, le, arrs, pages);
    PageMeans(t, p, le, arrs, pages, 0);
    StartIsProduct(|pages|, p.limit);
  }
}
