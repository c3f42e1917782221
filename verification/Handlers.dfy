/** How the two APIs turn a list request into parameters, and what that does to the arithmetic. */
module Handlers {
  import opened Domain
  import opened Database
  import Ilike
  import opened Sql
  import opened Listing

  // ---- REST --------------------------------------------------------------------------------------

  type Pairs = seq<(string, string)>

  predicate Distinct(q: Pairs) {
    forall i, j | 0 <= i < j < |q| :: q[i].0 != q[j].0
  }

  /** Query parameters with their first values; the keys of a map, in the order it yields them. */
  type QueryString = q: Pairs | Distinct(q)

  /** The value of a parameter, empty when it is absent. */
  function Lookup(q: Pairs, key: string): string {
    if q == [] then "" else if q[0].0 == key then q[0].1 else Lookup(q[1..], key)
  }

  /** Parsing of a decimal 64-bit integer with an optional sign. */
  function Atoi(s: string): Option<int> {
    var digits := if s != "" && (s[0] == '+' || s[0] == '-') then s[1..] else s;
    if digits == "" || !Digits(digits) then None
    else
      var magnitude: int := Value(digits);
      var n := if s[0] == '-' then -magnitude else magnitude;
      if -TWO_63 <= n < TWO_63 then Some(n) else None
  }

  function ParseBool(s: string): Option<bool> {
    if s in {"1", "t", "T", "TRUE", "true", "True"} then Some(true)
    else if s in {"0", "f", "F", "FALSE", "false", "False"} then Some(false)
    else None
  }

  /** A positive number, or the default. */
  function Positive(s: string, default: int): (n: int)
    requires 0 < default < TWO_63
    ensures 0 < n < TWO_63
  {
    var n := Atoi(s);
    if n.Some? && n.value > 0 then n.value else default
  }

  function QueryFilters(q: Pairs): (fs: seq<Filter>)
    ensures forall f :: f in fs <==> (f.field, f.value) in q && f.value != ""
  {
    if q == [] then []
    else
      var (key, value) := q[|q| - 1];
      QueryFilters(q[..|q| - 1]) + if value != "" then [Filter(key, value)] else []
  }

  function RestParams(q: QueryString): ListParams {
    var page, limit := Positive(Lookup(q, "page"), 1), Positive(Lookup(q, "limit"), 10);
    var orderBy, desc := Lookup(q, "order_by"), ParseBool(Lookup(q, "order_desc"));
    ListParams(limit, Int64((page - 1) * limit), QueryFilters(q),
               if orderBy != "" then orderBy else "created_at",
               if desc.Some? then desc.value else true)
  }

  /** The decimal text of a positive 64-bit number parses to the number. */
  lemma {:induction false} DecParses(n: nat)
    requires 0 < n < TWO_63
    ensures forall default :: 0 < default < TWO_63 ==> Positive(Dec(n), default) == n
  {
    DecRoundTrip(n);
    assert '0' <= Dec(n)[0] <= '9';
  }

  method PositiveOr(s: string, default: int) returns (n: int)
    requires 0 < default < TWO_63
    ensures n == Positive(s, default)
  {
    n := default;
    if s != "" {
      var parsed := Atoi(s);
      if parsed.Some? && parsed.value > 0 {
        n := parsed.value;
      }
    }
  }

  method ReadFilters(q: QueryString) returns (filters: seq<Filter>)
    ensures filters == QueryFilters(q)
  {
    filters := [];
    for i := 0 to |q|
      invariant filters == QueryFilters(q[..i])
    {
      assert q[..i + 1][..i] == q[..i];
      if q[i].1 != "" {
        filters := filters + [Filter(q[i].0, q[i].1)];
      }
    }
    assert q[..|q|] == q;
  }

  method RestListParams(q: QueryString) returns (p: ListParams)
    ensures p == RestParams(q)
  {
    var page := PositiveOr(Lookup(q, "page"), 1);
    var limit := PositiveOr(Lookup(q, "limit"), 10);
    var orderBy, desc := "created_at", true;
    if Lookup(q, "order_by") != "" {
      orderBy := Lookup(q, "order_by");
    }
    if Lookup(q, "order_desc") != "" {
      var flag := ParseBool(Lookup(q, "order_desc"));
      if flag.Some? {
        desc := flag.value;
      }
    }
    var filters := ReadFilters(q);
    p := ListParams(limit, Int64((page - 1) * limit), filters, orderBy, desc);
  }

  const CONTROLS := {"page", "limit", "order_by", "order_desc"}

  /** Each allowed parameter with a value finds it in the field it names. */
  ghost predicate Asked(u: User, q: QueryString) {
    forall field, value | (field, value) in q && value != "" && field in ALLOWED ::
      Ilike.Matches(TextOf(u, field), Ilike.Pattern(value))
  }

  ghost function RestSelection(t: Table, q: QueryString): set<User> {
    set id | id in t && Asked(t[id], q) :: t[id]
  }

  /** The parameters that steer paging and order never become conditions: a row is selected by the
      allowed parameters alone, whatever else the query string holds and in whatever order. */
  lemma RestSelects(t: Table, q: QueryString)
    ensures Selected(t, RestParams(q).filters) == RestSelection(t, q)
    ensures CONTROLS !! ALLOWED
  {
    var fs := RestParams(q).filters;
    forall id | id in t ensures Holds(t[id], fs) <==> Asked(t[id], q) {
      var u := t[id];
      if Holds(u, fs) {
        forall field, value | (field, value) in q && value != "" && field in ALLOWED
          ensures Ilike.Matches(TextOf(u, field), Ilike.Pattern(value))
        {
          assert Filter(field, value) in fs && FilterHolds(u, Filter(field, value));
        }
      }
    }
  }

  // ---- The controls of a REST request --------------------------------------------------------------

  /** A parameter has the value it was given, and none if it was not. */
  lemma {:induction false} LookupMeans(q: Pairs, key: string)
    requires Distinct(q)
    ensures forall value :: (key, value) in q ==> Lookup(q, key) == value
    ensures (forall value :: (key, value) !in q) ==> Lookup(q, key) == ""
  {
    if q != [] {
      var rest := q[1..];
      assert q == [q[0]] + rest;
      RestDistinct(q);
      LookupMeans(rest, key);
    }
  }

  lemma RestDistinct(q: Pairs)
    requires q != [] && Distinct(q)
    ensures Distinct(q[1..]) && forall pair | pair in q[1..] :: pair.0 != q[0].0
  {
    var rest := q[1..];
    assert forall i | 0 <= i < |rest| :: rest[i] == q[i + 1];
  }

  /** The text is the number, in decimal digits with or without a plus sign. */
  predicate Numeral(s: string, n: nat) {
    var digits := if s != "" && s[0] == '+' then s[1..] else s;
    digits != "" && Digits(digits) && Value(digits) == n
  }

  /** Positive 64-bit numbers are taken, and anything else gives the default. */
  lemma {:induction false} PositiveExactly(s: string, default: int)
    requires 0 < default < TWO_63
    ensures forall n: nat | 0 < n < TWO_63 && Numeral(s, n) :: Positive(s, default) == n
    ensures (forall n: nat | 0 < n < TWO_63 :: !Numeral(s, n)) ==> Positive(s, default) == default
  {
    if Positive(s, default) != default {
      var n := Positive(s, default);
      assert Numeral(s, n);
    }
  }

  /** What page, limit and order come to. Without them: page 1, ten rows, latest created first. */
  lemma {:induction false} RestControls(q: QueryString)
    ensures var p := RestParams(q);
            && p.limit == Positive(Lookup(q, "limit"), 10)
            && (forall v | ("order_by", v) in q && v != "" :: p.orderBy == v)
            && (Lookup(q, "order_by") == "" ==> p.orderBy == "created_at")
            && (!p.desc <==> Lookup(q, "order_desc") in ["0", "f", "F", "FALSE", "false", "False"])
  {
    LookupMeans(q, "order_by");
  }

  // ---- gRPC --------------------------------------------------------------------------------------

  const TWO_31: int := 0x8000_0000

  type Int32 = x: int | -TWO_31 <= x < TWO_31

  function NonEmpty(fs: seq<Filter>): (r: seq<Filter>)
    ensures forall f :: f in r <==> f in fs && f.value != ""
  {
    if fs == [] then []
    else NonEmpty(fs[..|fs| - 1]) + if fs[|fs| - 1].value != "" then [fs[|fs| - 1]] else []
  }

  function GrpcParams(page: Int32, limit: Int32, filters: seq<Filter>, orderBy: string, desc: bool): ListParams {
    var p, l := if page > 0 then page else 1, if limit > 0 then limit else 10;
    ListParams(l, Int64((p - 1) * l), NonEmpty(filters), orderBy, desc)
  }

  /** Every filter of the request with a value, on an allowed field, finds it in that field. */
  ghost predicate GrpcAsked(u: User, filters: seq<Filter>) {
    forall f | f in filters && f.value != "" && f.field in ALLOWED ::
      Ilike.Matches(TextOf(u, f.field), Ilike.Pattern(f.value))
  }

  ghost function GrpcSelection(t: Table, filters: seq<Filter>): set<User> {
    set id | id in t && GrpcAsked(t[id], filters) :: t[id]
  }

  function PageSize(limit: Int32): int {
    if limit > 0 then limit else 10
  }

  /** Rows are selected by the filters with a value, and order, direction and page size are those asked
      for; a missing page size is ten. */
  lemma {:induction false} GrpcSelects(t: Table, page: Int32, limit: Int32, filters: seq<Filter>, orderBy: string, desc: bool)
    ensures var p := GrpcParams(page, limit, filters, orderBy, desc);
            && Selected(t, p.filters) == GrpcSelection(t, filters)
            && p.orderBy == orderBy && p.desc == desc && p.limit == PageSize(limit)
  {
    forall id | id in t ensures Holds(t[id], NonEmpty(filters)) <==> GrpcAsked(t[id], filters) {
      assert forall f | f in NonEmpty(filters) && f.field in ALLOWED ::
          FilterHolds(t[id], f) <==> Ilike.Matches(TextOf(t[id], f.field), Ilike.Pattern(f.value));
    }
  }

  /** Filters keep their order. */
  lemma {:induction false} NonEmptyKeepsOrder(fs: seq<Filter>, gs: seq<Filter>)
    ensures NonEmpty(fs + gs) == NonEmpty(fs) + NonEmpty(gs)
    decreases |gs|
  {
    if gs == [] {
      assert fs + gs == fs;
    } else {
      var n := |gs| - 1;
      assert (fs + gs)[..|fs + gs| - 1] == fs + gs[..n];
      NonEmptyKeepsOrder(fs, gs[..n]);
    }
  }

  method GrpcListParams(page: Int32, limit: Int32, filters: seq<Filter>, orderBy: string, desc: bool)
    returns (p: ListParams)
    ensures p == GrpcParams(page, limit, filters, orderBy, desc)
  {
    var pageNumber: int := 1;
    if page > 0 {
      pageNumber := page;
    }
    var pageSize: int := 10;
    if limit > 0 {
      pageSize := limit;
    }
    p := ListParams(pageSize, Int64((pageNumber - 1) * pageSize), [], orderBy, desc);
    var kept: seq<Filter> := [];
    for i := 0 to |filters|
      invariant kept == NonEmpty(filters[..i])
    {
      assert filters[..i + 1][..i] == filters[..i];
      if filters[i].value != "" {
        kept := kept + [filters[i]];
      }
    }
    assert filters[..|filters|] == filters;
    p := p.(filters := kept);
  }

  // ---- Arithmetic --------------------------------------------------------------------------------

  lemma ProductBound(page: int, limit: int, m: int)
    requires 1 <= page <= m && 1 <= limit <= m
    ensures 0 <= (page - 1) * limit && (page - 1) * limit + limit == page * limit <= m * m
  {
  }

  /** On gRPC no page and limit overflow, and hasMore compares the exact product. */
  lemma GrpcArithmetic(page: Int32, limit: Int32, filters: seq<Filter>, orderBy: string, desc: bool, total: nat)
    ensures var p := GrpcParams(page, limit, filters, orderBy, desc);
            var n := if page > 0 then page else 1;
            && p.offset == (n - 1) * p.limit && 0 <= p.offset && p.offset + p.limit < TWO_63
            && (HasMore(p, total) <==> total > n * p.limit)
  {
    var n, l := if page > 0 then page else 1, if limit > 0 then limit else 10;
    ProductBound(n, l, TWO_31);
    Int64Exact((n - 1) * l);
    Int64Exact((n - 1) * l + l);
  }

  lemma Int64Shifts(x: int, y: int)
    ensures Int64(Int64(x) + y) == Int64(x + y)
  {
  }

  /** On REST a request is refused when its offset wrapped below zero. Of the others hasMore is exact for
      every total exactly when page * limit stays below 2^63, or wraps to the one value that no total
      exceeds. */
  lemma {:induction false} RestArithmeticExactly(q: QueryString)
    ensures var p, page := RestParams(q), Positive(Lookup(q, "page"), 1);
            && (page * p.limit < TWO_63 ==> p.offset == (page - 1) * p.limit && 0 <= p.offset)
            && (p.offset < 0 ==> forall t, le, arr, users, hasMore, total ::
                  !Listed(t, p, le, arr, users, hasMore, total))
            && (0 <= p.offset ==>
                  ((forall total: nat | total < TWO_63 :: HasMore(p, total) <==> total > page * p.limit) <==>
                   page * p.limit < TWO_63 || Int64(page * p.limit) == TWO_63 - 1))
  {
    var p, page := RestParams(q), Positive(Lookup(q, "page"), 1);
    var n := page * p.limit;
    ProductBound(page, p.limit, TWO_63);
    Int64Shifts((page - 1) * p.limit, p.limit);
    Int64Exact((page - 1) * p.limit);
    Int64Exact(n);
    assert Int64(p.offset + p.limit) == Int64(n);
    HasMoreExactly(p, n);
    forall t, le, arr, users, hasMore, total | p.offset < 0
      ensures !Listed(t, p, le, arr, users, hasMore, total)
    {
      NegativeOffsetRefused(t, p, le, arr, users, hasMore, total);
    }
  }

  const TWO_62: int := 0x4000_0000_0000_0000

  /** The second page of 2^62 rows: the offset is legal and every table can be listed, always with
      hasMore, although the page ends after any row there could be. */
  lemma {:induction false} RestAlwaysMore(t: Table, q: QueryString, le: Collation)
    requires TotalOrder(le) && Positive(Lookup(q, "page"), 1) == 2 && Positive(Lookup(q, "limit"), 10) == TWO_62
    ensures var p := RestParams(q);
            && p.offset == TWO_62 == p.limit
            && (forall total: nat :: HasMore(p, total))
            && 2 * p.limit == TWO_63
            && exists arr, users, hasMore, total :: Listed(t, p, le, arr, users, hasMore, total)
  {
    var p := RestParams(q);
    Int64Exact(TWO_62);
    assert Int64(p.offset + p.limit) < 0;
    AnswerableExactly(t, p, le);
  }

  /** page=2&limit=4611686018427387904 is such a request. */
  lemma {:induction false} RestAlwaysMoreQuery()
    ensures var q: Pairs := [("page", Dec(2)), ("limit", Dec(TWO_62))];
            Distinct(q) && Positive(Lookup(q, "page"), 1) == 2 && Positive(Lookup(q, "limit"), 10) == TWO_62
  {
    PageAndLimit(2, TWO_62);
  }

  lemma {:induction false} PageAndLimit(page: nat, limit: nat)
    requires 0 < page < TWO_63 && 0 < limit < TWO_63
    ensures var q: Pairs := [("page", Dec(page)), ("limit", Dec(limit))];
            Distinct(q) && Positive(Lookup(q, "page"), 1) == page && Positive(Lookup(q, "limit"), 10) == limit
  {
    var q: Pairs := [("page", Dec(page)), ("limit", Dec(limit))];
    DecParses(page);
    DecParses(limit);
    assert Lookup(q, "page") == Dec(page);
    assert q[1..] == [("limit", Dec(limit))];
    assert Lookup(q, "limit") == Lookup(q[1..], "limit") == Dec(limit);
  }

  lemma HasMoreExactly(p: ListParams, n: nat)
    requires p.limit > 0 && Int64(p.offset + p.limit) == Int64(n)
    ensures (forall total: nat | total < TWO_63 :: HasMore(p, total) <==> total > n) <==>
            n < TWO_63 || Int64(n) == TWO_63 - 1
  {
    Int64Exact(n);
    if n >= TWO_63 && Int64(n) != TWO_63 - 1 {
      var total := TWO_63 - 1;
      assert HasMore(p, total) && !(total > n);
    }
  }

  /** A list can be answered at all exactly when it names an order; the gRPC default does not. */
  lemma AnswerableExactly(t: Table, p: ListParams, le: Collation)
    requires 0 <= p.limit && 0 <= p.offset && TotalOrder(le)
    ensures p.orderBy != "" <==> exists arr, users, hasMore, total :: Listed(t, p, le, arr, users, hasMore, total)
  {
    forall arr, users, hasMore, total
      ensures Listed(t, p, le, arr, users, hasMore, total) ==> p.orderBy != ""
    {
      ListMeans(t, p, le, arr, users, hasMore, total);
    }
    var rows := Selected(t, p.filters);
    var arr := SortedExists(rows, OrderColumn(p.orderBy), p.desc, le);
    var users, hasMore := Slice(arr, p.offset, p.limit), HasMore(p, |rows|);
    ListMeans(t, p, le, arr, users, hasMore, |rows|);
    assert IsListing(t, p, le, arr, users, hasMore, |rows|);
  }
}
